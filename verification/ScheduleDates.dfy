/**
 Date presets, grouping and keys of the schedule screen (legacy/web/schedule-dates.ts).
 A `Date` that stands for a local midnight is its day number.
 */
module ScheduleDates {
  import opened Calendar
  import opened Stamps
  import opened Text
  import opened Wrappers

  /**
   The local time zone: the local day of an instant and the instant a local day
   starts.  `Valid` is all that is assumed of it: a day has started exactly when
   the clock shows that day or a later one.
   */
  datatype Zone = Zone(day: int -> int, midnight: int -> int) {
    ghost predicate Valid() {
      && (forall t, n :: midnight(n) <= t <==> n <= day(t))
      && (forall n :: day(midnight(n)) == n)
    }
  }

  type WeekStart = w: int | 0 <= w <= 6

  datatype Preset =
    | Today | TodayAndTomorrow | ThisWeek | NextWeek | ThisMonth
    | Next6Months | Next12Months | Unscheduled | CustomRange

  datatype Grouping = ByWeek | ByTwoWeeks | ByMonth

  /** The days from `start` up to and not including `end`. */
  datatype Bounds = Bounds(start: int, end: int)

  // ---- Operations

  function LocalDateKey(n: int): string {
    var c := CivilOf(n);
    DayNumberOfCivil(n);
    IntText(c.year) + "-" + Pad2(c.month) + "-" + Pad2(c.day)
  }

  function Day(n: int): int {
    MakeDay(CivilOf(n).year, CivilOf(n).month - 1, CivilOf(n).day)
  }

  /** `(date.getDay() - first + 7) % 7`. */
  function SinceWeekStart(n: int, first: WeekStart): (days: int)
    ensures 0 <= days < 7
  {
    (Weekday(n) - first + 7) % 7
  }

  function Week(n: int, first: WeekStart): int {
    AddDays(Day(n), -SinceWeekStart(n, first))
  }

  function AddMonths(n: int, count: int): int {
    var c := CivilOf(n);
    var last := CivilOf(MakeDay(c.year, c.month - 1 + count + 1, 0)).day;
    MakeDay(c.year, c.month - 1 + count, if c.day < last then c.day else last)
  }

  predicate DateShaped(value: string) {
    && |value| == 10
    && AllDigits(value[..4]) && value[4] == '-'
    && AllDigits(value[5..7]) && value[7] == '-'
    && AllDigits(value[8..])
  }

  function Fields(value: string): Civil
    requires DateShaped(value)
  {
    Civil(NatValue(value[..4]), NatValue(value[5..7]), NatValue(value[8..]))
  }

  /**
   `lenient` is what the engine makes of a well-shaped text that names no real
   day, such as 30 February: nothing, or any day at all.
   */
  function ParseDay(value: string, lenient: string -> Option<int>): Option<int> {
    if !DateShaped(value) then None
    else
      var date := if Fields(value).Valid() then Some(DayNumber(Fields(value))) else lenient(value);
      if date.Some? && LocalDateKey(date.value) == value then date else None
  }

  /** `now` is a local day; `from` and `to` are the parsed ends of a custom range. */
  function DateBounds(preset: Preset, now: int, first: WeekStart, from: Option<int>, to: Option<int>): Option<Bounds> {
    var today := Day(now);
    match preset
    case Today => Some(Bounds(today, AddDays(today, 1)))
    case TodayAndTomorrow => Some(Bounds(today, AddDays(today, 2)))
    case ThisWeek =>
      var start := Week(today, first);
      Some(Bounds(start, AddDays(start, 7)))
    case NextWeek =>
      var start := AddDays(Week(today, first), 7);
      Some(Bounds(start, AddDays(start, 7)))
    case ThisMonth =>
      Some(Bounds(MakeDay(CivilOf(today).year, CivilOf(today).month - 1, 1),
                  MakeDay(CivilOf(today).year, CivilOf(today).month, 1)))
    case Next6Months => Some(Bounds(today, AddMonths(today, 6)))
    case Next12Months => Some(Bounds(today, AddMonths(today, 12)))
    case CustomRange =>
      if from.Some? && to.Some? && from.value <= to.value
      then Some(Bounds(from.value, AddDays(to.value, 1)))
      else None
    case Unscheduled => None
  }

  predicate Matches(zone: Zone, startAt: Stamp, preset: Preset, bounds: Option<Bounds>) {
    if preset == Unscheduled then startAt == Blank
    else (
      && startAt.At? && bounds.Some?
      && zone.midnight(bounds.value.start) <= startAt.t < zone.midnight(bounds.value.end)
    )
  }

  /** `Date.UTC(...) / 86400000`, in days since 1 January 1970. */
  function UtcOrdinal(n: int): int {
    MakeDay(CivilOf(n).year, CivilOf(n).month - 1, CivilOf(n).day) - EPOCH
  }

  /** The first day of the group of local day `n`; `anchor` is a local day too. */
  function GroupStart(n: int, grouping: Grouping, first: WeekStart, anchor: int): int {
    match grouping
    case ByMonth => MakeDay(CivilOf(n).year, CivilOf(n).month - 1, 1)
    case ByWeek => Week(n, first)
    case ByTwoWeeks =>
      var start, base := Week(n, first), Week(anchor, first);
      AddDays(base, (UtcOrdinal(start) - UtcOrdinal(base)) / 14 * 14)
  }

  function GroupKey(zone: Zone, startAt: Stamp, grouping: Grouping, first: WeekStart, anchor: int): string {
    if !startAt.At? then "unscheduled"
    else LocalDateKey(GroupStart(zone.day(startAt.t), grouping, first, anchor))
  }

  // ---- Keys

  /** A key names its day: no two days print alike, and none prints "unscheduled". */
  lemma KeyInjective(a: int, b: int)
    ensures LocalDateKey(a) == LocalDateKey(b) ==> a == b
    ensures LocalDateKey(a) != "unscheduled"
  {
    KeyParts(a);
    KeyParts(b);
    if LocalDateKey(a) == LocalDateKey(b) {
      var key := LocalDateKey(a);
      var n := |key| - 6;
      IntTextInjective(CivilOf(a).year, CivilOf(b).year);
      assert CivilOf(a) == CivilOf(b);
      DayNumberOfCivil(a);
      DayNumberOfCivil(b);
    }
  }

  lemma KeyParts(n: int)
    ensures var key, c := LocalDateKey(n), CivilOf(n);
            && |key| == |IntText(c.year)| + 6
            && key[..|key| - 6] == IntText(c.year)
            && key[|key| - 6] == '-' && key[|key| - 3] == '-'
            && AllDigits(key[|key| - 5..|key| - 3]) && NatValue(key[|key| - 5..|key| - 3]) == c.month
            && AllDigits(key[|key| - 2..]) && NatValue(key[|key| - 2..]) == c.day
  {
    hide CivilOf, DayNumber, DaysInMonth, IntText, Pad2, NatValue, AllDigits;
    DayNumberOfCivil(n);
    var key, c := LocalDateKey(n), CivilOf(n);
    DayLimit(c.year, c.month);
    Pad2Value(c.month);
    Pad2Value(c.day);
    var year := IntText(c.year);
    assert key == year + ("-" + Pad2(c.month) + "-" + Pad2(c.day));
    assert key[|key| - 5..|key| - 3] == Pad2(c.month);
    assert key[|key| - 2..] == Pad2(c.day);
  }

  lemma DayLimit(year: int, month: int)
    ensures DaysInMonth(year, month) <= 31
  {
  }

  /**
   A text parses to a day exactly when it is that day's key and the year has
   four digits, whatever the engine makes of texts that name no real day.
   */
  lemma ParseDayExact(value: string, lenient: string -> Option<int>, n: int)
    ensures ParseDay(value, lenient) == Some(n) <==> (value == LocalDateKey(n) && 1000 <= CivilOf(n).year <= 9999)
  {
    if value == LocalDateKey(n) {
      KeyYearLength(n);
      if 1000 <= CivilOf(n).year <= 9999 {
        ParseOfKey(n);
      }
    }
  }

  lemma KeyYearLength(n: int)
    ensures DateShaped(LocalDateKey(n)) <==> 1000 <= CivilOf(n).year <= 9999
  {
    hide CivilOf, NatValue, NatText;
    KeyParts(n);
    var year, key := CivilOf(n).year, LocalDateKey(n);
    hide LocalDateKey;
    if year < 0 {
      assert key[..|key| - 6][0] == '-';
      assert key[0] == '-';
      assert !IsDigit(key[..4][0]);
    } else {
      NatTextLength(year);
      NatValueOfText(year);
      assert |key| == 10 <==> 1000 <= year <= 9999;
    }
  }

  lemma ParseOfKey(n: int)
    requires 1000 <= CivilOf(n).year <= 9999
    ensures DateShaped(LocalDateKey(n)) && Fields(LocalDateKey(n)) == CivilOf(n)
    ensures Fields(LocalDateKey(n)).Valid() && DayNumber(Fields(LocalDateKey(n))) == n
  {
    hide CivilOf, NatValue, NatText, DaysInMonth, DayNumber;
    KeyYearLength(n);
    KeyParts(n);
    NatValueOfText(CivilOf(n).year);
    NatTextLength(CivilOf(n).year);
    DayNumberOfCivil(n);
  }

  // ---- Weeks

  /** The last `first` weekday on or before a day. */
  function WeekStartOf(n: int, first: WeekStart): int {
    n - (n - first) % 7
  }

  /** The day is a `first` weekday, told without naming its weekday. */
  predicate StartsWeek(n: int, first: int) {
    (n - first) % 7 == 0
  }

  lemma WeekOn(n: int, first: int)
    requires StartsWeek(n, first)
    ensures StartsWeek(n + 7, first) && StartsWeek(n - 7, first)
  {
  }

  /** How far truncating to the day moves a day: a year of 0 to 99 becomes one of the 1900s. */
  function Moved(n: int): int {
    Day(n) - n
  }

  lemma MovedExact(n: int)
    ensures Plain(Day(n))
    ensures if Plain(n) then Moved(n) == 0 else 693960 <= Moved(n) <= 693961
  {
    hide CivilOf, MakeDay, AddDays;
    assert Day(n) == AddDays(n, 0) by { DayIsSum(n); }
    DayMoved(n);
  }

  lemma DayIsSum(n: int)
    ensures Day(n) == AddDays(n, 0)
  {
  }

  lemma AddDaysFromDay(n: int, count: int)
    ensures AddDays(n, count) == Day(n) + count
  {
    hide CivilOf, MakeDay, AddDays, Day;
    DayIsSum(n);
    AddDaysLinear(n, count);
  }

  /** The weekday arithmetic of the week's start. */
  lemma WeekStartIs(n: int, first: WeekStart)
    ensures n - SinceWeekStart(n, first) == WeekStartOf(n, first)
    ensures Weekday(WeekStartOf(n, first)) == first && StartsWeek(WeekStartOf(n, first), first)
    ensures WeekStartOf(n, first) <= n < WeekStartOf(n, first) + 7
  {
    var q, w := n / 7, n % 7;
    assert n == 7 * q + w;
    if w >= first {
      assert n - first == 7 * q + (w - first);
      assert SinceWeekStart(n, first) == w - first;
    } else {
      assert n - first == 7 * (q - 1) + (w - first + 7);
      assert SinceWeekStart(n, first) == w - first + 7;
    }
  }

  /** The weekday is taken before the day is moved, so the week moves as the day does. */
  lemma WeekMoves(n: int, first: WeekStart)
    ensures Week(n, first) == WeekStartOf(n, first) + Moved(n)
  {
    hide Day, AddDays, WeekStartOf, Plain, SinceWeekStart;
    MovedExact(n);
    MovedExact(Day(n));
    WeekStartIs(n, first);
    AddDaysFromDay(Day(n), -SinceWeekStart(n, first));
  }

  lemma WeekStartNear(n: int, first: WeekStart)
    ensures WeekStartOf(n, first) <= n < WeekStartOf(n, first) + 7
  {
  }

  /** Moving to the 1900s changes the weekday. */
  lemma WeekdayMoved(w: int, moved: int)
    requires moved == 0 || 693960 <= moved <= 693961
    ensures Weekday(w + moved) == Weekday(w) <==> moved == 0
  {
    var q, r := w / 7, w % 7;
    assert w == 7 * q + r;
    if moved == 693960 {
      assert w + moved == 7 * (q + 99137) + (r + 1);
    } else if moved == 693961 {
      assert w + moved == 7 * (q + 99137) + (r + 2);
    }
  }

  /**
   The start of a day's week is the last `first` weekday on or before it, and the
   day lies in the seven days from there, exactly when the two-digit year rule
   leaves its year alone.
   */
  lemma WeekExact(n: int, first: WeekStart)
    ensures Week(n, first) == WeekStartOf(n, first) <==> Plain(n)
    ensures Week(n, first) <= n < Week(n, first) + 7 <==> Plain(n)
    ensures Weekday(Week(n, first)) == first <==> Plain(n)
  {
    hide Week, WeekStartOf, Plain, Moved, Weekday;
    WeekStartNear(n, first);
    WeekMoves(n, first);
    MovedExact(n);
    StartWeekday(n, first);
    WeekdayMoved(WeekStartOf(n, first), Moved(n));
  }

  lemma StartWeekday(n: int, first: WeekStart)
    ensures Weekday(WeekStartOf(n, first)) == first
  {
    hide Weekday, WeekStartOf, SinceWeekStart;
    WeekStartIs(n, first);
  }

  /**
   Two days have one week start exactly when the one, as moved, lies in the seven
   days from it and the two are moved alike up to whole weeks.
   */
  lemma SameWeek(a: int, b: int, first: WeekStart)
    ensures Week(a, first) == Week(b, first)
       <==> Week(b, first) <= Day(a) < Week(b, first) + 7 && (Moved(a) - Moved(b)) % 7 == 0
    ensures Plain(a) && Plain(b) ==> (Week(a, first) == Week(b, first) <==> Week(b, first) <= a < Week(b, first) + 7)
  {
    hide Week, WeekStartOf, Day, Plain, StartsWeek;
    WeekStartIs(a, first);
    WeekStartIs(b, first);
    WeekMoves(a, first);
    WeekMoves(b, first);
    MovedExact(a);
    MovedExact(b);
    Congruent(WeekStartOf(a, first), WeekStartOf(b, first), first);
  }

  lemma Congruent(v: int, w: int, first: int)
    requires StartsWeek(v, first) && StartsWeek(w, first)
    ensures (v - w) % 7 == 0
  {
  }

  /** A week's start is a given `first` weekday exactly when its day lies in the week from there and keeps its year. */
  lemma WeekIs(n: int, first: WeekStart, start: int)
    requires StartsWeek(start, first)
    ensures Week(n, first) == start <==> Plain(n) && start <= n < start + 7
  {
    hide Week, WeekStartOf, Moved, Plain, Weekday, SinceWeekStart, StartsWeek;
    WeekMoves(n, first);
    MovedExact(n);
    WeekStartIs(n, first);
    SameStart(n, WeekStartOf(n, first), Moved(n), first, start);
  }

  lemma SameStart(n: int, week: int, moved: int, first: int, start: int)
    requires StartsWeek(week, first) && StartsWeek(start, first) && week <= n < week + 7
    requires moved == 0 || 693960 <= moved <= 693961
    ensures week + moved == start <==> moved == 0 && start <= n < start + 7
  {
    var j, k := (week - first) / 7, (start - first) / 7;
    assert week == 7 * j + first && start == 7 * k + first;
  }

  // ---- Fortnights

  /** The week of the day and its start are in years the `Date` constructor keeps. */
  predicate PlainWeek(n: int, first: WeekStart) {
    Plain(n) && Plain(WeekStartOf(n, first))
  }

  /** The day that decides on the fortnight of day `n`: its week's start, truncated to the day once more. */
  function Placed(n: int, first: WeekStart): int {
    Day(Week(n, first))
  }

  lemma PlacedExact(n: int, first: WeekStart)
    ensures Placed(n, first) == WeekStartOf(n, first) <==> PlainWeek(n, first)
    ensures !PlainWeek(n, first) ==> Placed(n, first) > n + 14
  {
    hide Week, WeekStartOf, Day, Plain, StartsWeek;
    WeekStartIs(n, first);
    WeekMoves(n, first);
    MovedExact(n);
    MovedExact(Week(n, first));
  }

  lemma FortnightStart(n: int, first: WeekStart, anchor: int)
    ensures GroupStart(n, ByTwoWeeks, first, anchor)
         == Placed(anchor, first) + (Placed(n, first) - Placed(anchor, first)) / 14 * 14
  {
    hide Week, CivilOf, MakeDay, Day, AddDays;
    var start, base := Week(n, first), Week(anchor, first);
    assert UtcOrdinal(start) == Day(start) - EPOCH && UtcOrdinal(base) == Day(base) - EPOCH by {
      DayFields(start);
      DayFields(base);
    }
    AddDaysFromDay(base, (UtcOrdinal(start) - UtcOrdinal(base)) / 14 * 14);
  }

  lemma DayFields(n: int)
    ensures MakeDay(CivilOf(n).year, CivilOf(n).month - 1, CivilOf(n).day) == Day(n)
  {
  }

  lemma SameFortnight(c: int, d: int)
    ensures c / 14 * 14 <= c < c / 14 * 14 + 14
    ensures c / 14 * 14 % 14 == 0
    ensures c / 14 * 14 == c - c % 14
    ensures c / 14 * 14 == d / 14 * 14 <==> c / 14 * 14 <= d < c / 14 * 14 + 14
  {
  }

  /**
   The fortnights tile the calendar: a day lies in the fourteen days from its
   group's start exactly when its year and that of its week's start are kept and
   its place in the fourteen days does not overrun them.  It never does when the
   anchor's years are kept; and a day whose years are not kept is put far ahead.
   */
  lemma FortnightExact(n: int, first: WeekStart, anchor: int)
    ensures var start := GroupStart(n, ByTwoWeeks, first, anchor);
            && (start <= n < start + 14
                <==> PlainWeek(n, first)
                     && (n - WeekStartOf(n, first)) + (WeekStartOf(n, first) - Placed(anchor, first)) % 14 < 14)
            && (PlainWeek(anchor, first) ==> (start <= n < start + 14 <==> PlainWeek(n, first)))
            && (!PlainWeek(n, first) ==> start > n)
  {
    hide Week, WeekStartOf, PlainWeek, Placed, GroupStart, StartsWeek;
    FortnightStart(n, first, anchor);
    PlacedExact(n, first);
    PlacedExact(anchor, first);
    WeekStartIs(n, first);
    WeekStartIs(anchor, first);
    SameFortnight(Placed(n, first) - Placed(anchor, first), 0);
    Congruent(WeekStartOf(n, first), WeekStartOf(anchor, first), first);
    WholeWeeks(WeekStartOf(n, first) - WeekStartOf(anchor, first));
  }

  lemma WholeWeeks(days: int)
    requires days % 7 == 0
    ensures days % 14 == 0 || days % 14 == 7
  {
  }

  /**
   Every group starts a multiple of fourteen days from the anchor's, on either
   side, and two days share a group exactly when the one is placed in the other's
   fourteen days; when all years are kept, exactly when it lies in them.
   */
  lemma FortnightsTile(a: int, b: int, first: WeekStart, anchor: int)
    ensures var start := GroupStart(a, ByTwoWeeks, first, anchor);
            && (start - Placed(anchor, first)) % 14 == 0
            && (GroupStart(b, ByTwoWeeks, first, anchor) == start <==> start <= Placed(b, first) < start + 14)
            && (PlainWeek(b, first) && PlainWeek(anchor, first)
                ==> (GroupStart(b, ByTwoWeeks, first, anchor) == start <==> start <= b < start + 14))
  {
    hide Week, WeekStartOf, PlainWeek, Placed, GroupStart;
    FortnightStart(a, first, anchor);
    FortnightStart(b, first, anchor);
    SameFortnight(Placed(a, first) - Placed(anchor, first), Placed(b, first) - Placed(anchor, first));
    if PlainWeek(b, first) && PlainWeek(anchor, first) {
      SharedFortnight(a, b, first, anchor);
    }
  }

  lemma SharedFortnight(a: int, b: int, first: WeekStart, anchor: int)
    requires PlainWeek(b, first) && PlainWeek(anchor, first)
    ensures var start := GroupStart(a, ByTwoWeeks, first, anchor);
            GroupStart(b, ByTwoWeeks, first, anchor) == start <==> start <= b < start + 14
  {
    hide Week, WeekStartOf, PlainWeek, Placed, GroupStart, StartsWeek;
    FortnightStart(a, first, anchor);
    FortnightStart(b, first, anchor);
    FortnightExact(b, first, anchor);
    var base := Placed(anchor, first);
    DisjointFortnights((Placed(a, first) - base) / 14, (Placed(b, first) - base) / 14, base, b);
  }

  lemma DisjointFortnights(j: int, k: int, base: int, b: int)
    requires base + k * 14 <= b < base + k * 14 + 14
    ensures j * 14 == k * 14 <==> base + j * 14 <= b < base + j * 14 + 14
  {
  }

  /** Two anchors group a day, and so every day, alike exactly when they are placed a multiple of fourteen days apart. */
  lemma AnchorsAgree(n: int, first: WeekStart, anchor1: int, anchor2: int)
    ensures GroupStart(n, ByTwoWeeks, first, anchor1) == GroupStart(n, ByTwoWeeks, first, anchor2)
       <==> (Placed(anchor1, first) - Placed(anchor2, first)) % 14 == 0
  {
    hide Placed, GroupStart;
    FortnightStart(n, first, anchor1);
    FortnightStart(n, first, anchor2);
    var w, b, c := Placed(n, first), Placed(anchor1, first), Placed(anchor2, first);
    SameFortnight(w - b, 0);
    SameFortnight(w - c, 0);
    SameRemainder(w - c, w - b);
  }

  lemma SameRemainder(x: int, y: int)
    ensures x % 14 == y % 14 <==> (x - y) % 14 == 0
  {
    var p, q, r := x / 14, y / 14, (x - y) / 14;
    assert x == 14 * p + x % 14 && y == 14 * q + y % 14 && x - y == 14 * r + (x - y) % 14;
  }

  /**
   Days of one week that are moved alike are never split over two fortnights; in a
   week that starts in a year that is kept, a day is split off exactly when its own
   year is not.
   */
  lemma FortnightsKeepWeeks(a: int, b: int, first: WeekStart, anchor: int)
    requires WeekStartOf(a, first) == WeekStartOf(b, first)
    ensures var same := GroupStart(a, ByTwoWeeks, first, anchor) == GroupStart(b, ByTwoWeeks, first, anchor);
            && (Moved(a) == Moved(b) ==> same)
            && (PlainWeek(a, first) ==> (same <==> Plain(b)))
  {
    hide Week, WeekStartOf, Moved, Placed, GroupStart;
    WeekMoves(a, first);
    WeekMoves(b, first);
    MovedExact(a);
    MovedExact(b);
    if Moved(a) == Moved(b) {
      SamePlace(a, b, first);
      FortnightStart(a, first, anchor);
      FortnightStart(b, first, anchor);
    }
    if PlainWeek(a, first) {
      WeekStartNear(b, first);
      PlacedExact(a, first);
      PlacedExact(b, first);
      FortnightStart(a, first, anchor);
      FortnightsTile(a, b, first, anchor);
      SameFortnight(Placed(a, first) - Placed(anchor, first), 0);
    }
  }

  lemma SamePlace(a: int, b: int, first: WeekStart)
    requires Week(a, first) == Week(b, first)
    ensures Placed(a, first) == Placed(b, first)
  {
    hide Week, Day;
  }

  /** An instance of the exception: 1 January of year 100 is a Friday whose week starts in year 99. */
  lemma FortnightMissesYear100(anchor: int)
    ensures var n := DayNumber(Civil(100, 1, 1));
            Plain(n) && GroupStart(n, ByTwoWeeks, 0, anchor) > n
  {
    hide DaysBeforeYear, GroupStart;
    DaysBeforeYearClosed(100);
    assert DayNumber(Civil(100, 1, 1)) == 36160;
    FortnightExact(36160, 0, anchor);
  }

  // ---- Months

  /** The month from which months are counted: a year of 0 to 99 is first moved to the 1900s. */
  function KeptMonth(n: int): int {
    MonthIndexOf(n) + (if Plain(n) then 0 else 12 * 1900)
  }

  lemma KeptMonthIs(n: int)
    ensures KeptMonth(n) == 12 * FullYear(CivilOf(n).year) + CivilOf(n).month - 1
  {
    hide CivilOf, YearOf, Plain;
    YearOfCivil(n);
    PlainYears(n);
  }

  /**
   Adding months lands in the month `count` later, on the same day of the month
   or on that month's last day.
   */
  lemma AddMonthsLands(n: int, count: int)
    ensures var index := KeptMonth(n) + count;
            && MonthIndexOf(AddMonths(n, count)) == index
            && DayOfMonth(AddMonths(n, count)) == Least(DayOfMonth(n), MonthDays(index))
            && AddMonths(n, count) == MonthStart(index) + Least(DayOfMonth(n), MonthDays(index)) - 1
  {
    hide MonthStart, MonthDays, CivilOf, KeptMonth;
    var c := CivilOf(n);
    KeptMonthIs(n);
    var index := KeptMonth(n) + count;
    assert index == 12 * FullYear(c.year) + (c.month - 1 + count);
    var lastDay := MakeDay(c.year, c.month - 1 + count + 1, 0);
    assert lastDay == MonthStart(index + 1) - 1;
    MonthStep(index);
    MonthOfDayUnique(lastDay, index);
    assert CivilOf(lastDay).day == MonthDays(index);
    MonthOfDay(n);
    MonthOfDayUnique(AddMonths(n, count), index);
  }

  function Least(a: int, b: int): int {
    if a <= b then a else b
  }

  /** Of days in two months the earlier month's comes first. */
  lemma MonthsSeparate(i: int, j: int, d: int, e: int)
    requires i < j && d <= MonthDays(i) && 1 <= e
    ensures MonthStart(i) + d - 1 < MonthStart(j) + e - 1
  {
    hide MonthStart, MonthDays;
    MonthStep(i);
    MonthsAscend(i + 1, j);
  }

  /**
   Month addition orders two days as the months they are counted from and then
   the clipped days of the month do; so it keeps the order of days, across year
   ends and leap years, unless the earlier day alone is moved to the 1900s.
   */
  lemma AddMonthsMonotone(a: int, b: int, count: int)
    ensures AddMonths(a, count) <= AddMonths(b, count)
       <==> (var length := MonthDays(KeptMonth(a) + count);
             KeptMonth(a) < KeptMonth(b)
             || (KeptMonth(a) == KeptMonth(b) && Least(DayOfMonth(a), length) <= Least(DayOfMonth(b), length)))
    ensures a <= b && (Plain(a) || !Plain(b)) ==> AddMonths(a, count) <= AddMonths(b, count)
  {
    hide AddMonths, MonthStart, MonthDays, MonthIndexOf, DayOfMonth, Plain, KeptMonth;
    AddMonthsLands(a, count);
    AddMonthsLands(b, count);
    MonthOfDay(a);
    MonthOfDay(b);
    var i, j := KeptMonth(a) + count, KeptMonth(b) + count;
    if i < j {
      MonthsSeparate(i, j, Least(DayOfMonth(a), MonthDays(i)), Least(DayOfMonth(b), MonthDays(j)));
    } else if j < i {
      MonthsSeparate(j, i, Least(DayOfMonth(b), MonthDays(j)), Least(DayOfMonth(a), MonthDays(i)));
    }
    if a <= b && (Plain(a) || !Plain(b)) {
      KeptMonthAscends(a, b);
    }
  }

  lemma KeptMonthAscends(a: int, b: int)
    requires a <= b && (Plain(a) || !Plain(b))
    ensures KeptMonth(a) < KeptMonth(b) || (KeptMonth(a) == KeptMonth(b) && DayOfMonth(a) <= DayOfMonth(b))
  {
    hide MonthStart, MonthDays, MonthIndexOf, DayOfMonth, Plain;
    MonthOfDay(a);
    MonthOfDay(b);
    if MonthIndexOf(b) < MonthIndexOf(a) {
      MonthsAscend(MonthIndexOf(b) + 1, MonthIndexOf(a));
    }
  }

  /** More months never land earlier. */
  lemma AddMonthsAscends(n: int, fewer: int, more: int)
    requires fewer <= more
    ensures AddMonths(n, fewer) <= AddMonths(n, more)
  {
    hide AddMonths, MonthStart, MonthDays, MonthIndexOf, DayOfMonth, KeptMonth;
    AddMonthsLands(n, fewer);
    AddMonthsLands(n, more);
    MonthOfDay(n);
    if fewer < more {
      var i, j := KeptMonth(n) + fewer, KeptMonth(n) + more;
      MonthsSeparate(i, j, Least(DayOfMonth(n), MonthDays(i)), Least(DayOfMonth(n), MonthDays(j)));
    }
  }

  /**
   Two hops never land later than one, and reach the same month, exactly when the
   constructor keeps the year of the stop between.  They reach the same day
   exactly when, besides, the first hop does not clip the day further than the
   whole hop does.
   */
  lemma AddMonthsTwice(n: int, first: int, second: int)
    ensures var stop := AddMonths(n, first);
            var once, twice := AddMonths(n, first + second), AddMonths(stop, second);
            && (twice <= once <==> Plain(stop))
            && (MonthIndexOf(twice) == MonthIndexOf(once) <==> Plain(stop))
            && (twice == once
                <==> Plain(stop)
                     && (DayOfMonth(n) <= MonthDays(MonthIndexOf(stop))
                         || MonthDays(MonthIndexOf(once)) <= MonthDays(MonthIndexOf(stop))))
  {
    hide AddMonths, MonthStart, MonthDays, MonthIndexOf, DayOfMonth, Plain;
    AddMonthsLands(n, first);
    AddMonthsLands(n, first + second);
    AddMonthsLands(AddMonths(n, first), second);
    MonthOfDay(n);
    var i, d := KeptMonth(n) + first + second, DayOfMonth(n);
    assert KeptMonth(n) + (first + second) == i;
    if !Plain(AddMonths(n, first)) {
      MonthsSeparate(i, i + 12 * 1900, Least(d, MonthDays(i)), DayOfMonth(AddMonths(AddMonths(n, first), second)));
    }
  }

  // ---- Presets, as days

  /** A dated preset accepts exactly the instants whose local day is within its bounds. */
  lemma MatchesDays(zone: Zone, t: int, preset: Preset, bounds: Bounds)
    requires zone.Valid() && preset != Unscheduled
    ensures Matches(zone, At(t), preset, Some(bounds)) <==> bounds.start <= zone.day(t) < bounds.end
  {
    assert zone.midnight(bounds.start) <= t <==> bounds.start <= zone.day(t);
    assert zone.midnight(bounds.end) <= t <==> bounds.end <= zone.day(t);
  }

  /** The constructor keeps the years of `days` days on end. */
  predicate PlainDays(start: int, days: nat) {
    Plain(start) && Plain(start + days - 1)
  }

  /** At an event, the preset accepts it exactly when the grouping puts it with the present moment. */
  ghost predicate AgreeAt(zone: Zone, startAt: Stamp, preset: Preset, grouping: Grouping, now: int, first: WeekStart) {
    var today := zone.day(now);
    Matches(zone, startAt, preset, DateBounds(preset, today, first, None, None))
    <==> GroupKey(zone, startAt, grouping, first, today) == GroupKey(zone, At(now), grouping, first, today)
  }

  /** Agreement told from the days. */
  lemma AgreeOnDay(zone: Zone, t: int, preset: Preset, grouping: Grouping, now: int, first: WeekStart, bounds: Bounds)
    requires zone.Valid() && preset != Unscheduled
    requires DateBounds(preset, zone.day(now), first, None, None) == Some(bounds)
    ensures AgreeAt(zone, At(t), preset, grouping, now, first)
       <==> (bounds.start <= zone.day(t) < bounds.end
             <==> GroupStart(zone.day(t), grouping, first, zone.day(now)) == GroupStart(zone.day(now), grouping, first, zone.day(now)))
  {
    hide DateBounds, GroupStart, LocalDateKey, Matches;
    MatchesDays(zone, t, preset, bounds);
    KeyInjective(GroupStart(zone.day(t), grouping, first, zone.day(now)), GroupStart(zone.day(now), grouping, first, zone.day(now)));
  }

  lemma AgreeUndated(zone: Zone, startAt: Stamp, preset: Preset, grouping: Grouping, now: int, first: WeekStart)
    requires !startAt.At? && preset != Unscheduled
    ensures AgreeAt(zone, startAt, preset, grouping, now, first)
  {
    hide DateBounds, GroupStart, LocalDateKey;
    var start := GroupStart(zone.day(now), grouping, first, zone.day(now));
    KeyInjective(start, start);
  }

  /** "This Week", from the present local day. */
  lemma ThisWeekBounds(today: int, first: WeekStart)
    ensures var start := WeekStartOf(Day(today), first);
            DateBounds(ThisWeek, today, first, None, None) == Some(Bounds(start, Day(start) + 7))
  {
    hide Week, Day, AddDays, Plain;
    MovedExact(today);
    WeekExact(Day(today), first);
    AddDaysFromDay(WeekStartOf(Day(today), first), 7);
  }

  /** The day on which "This Week" and the Week grouping disagree when the week's years are not kept. */
  lemma ThisWeekMiss(today: int, first: WeekStart) returns (d: int)
    requires !PlainDays(WeekStartOf(today, first), 7)
    ensures var start := WeekStartOf(Day(today), first);
            !(start <= d < Day(start) + 7 <==> Week(d, first) == Week(today, first))
  {
    hide Week, Day, WeekStartOf, Weekday, StartsWeek;
    var week := WeekStartOf(today, first);
    WeekStartIs(today, first);
    WeekStartIs(Day(today), first);
    MovedExact(today);
    MovedExact(week);
    d := if !Plain(today) then today else if !Plain(week) then week + 7 else week + 6;
    WeekIs(today, first, week);
    WeekIs(d, first, week);
  }

  /** "This Week" accepts exactly what the Week grouping puts with the present, exactly when the years of this week are kept. */
  lemma ThisWeekIsWeekGroup(zone: Zone, now: int, first: WeekStart)
    requires zone.Valid()
    ensures (forall startAt :: AgreeAt(zone, startAt, ThisWeek, ByWeek, now, first))
       <==> PlainDays(WeekStartOf(zone.day(now), first), 7)
  {
    hide Week, Day, WeekStartOf, AgreeAt, DateBounds, Weekday, StartsWeek;
    var today := zone.day(now);
    var start := WeekStartOf(Day(today), first);
    ThisWeekBounds(today, first);
    if PlainDays(WeekStartOf(today, first), 7) {
      WeekStartIs(today, first);
      MovedExact(today);
      MovedExact(start);
      forall startAt: Stamp
        ensures AgreeAt(zone, startAt, ThisWeek, ByWeek, now, first)
      {
        if startAt.At? {
          AgreeOnDay(zone, startAt.t, ThisWeek, ByWeek, now, first, Bounds(start, Day(start) + 7));
          WeekIs(today, first, start);
          WeekIs(zone.day(startAt.t), first, start);
        } else {
          AgreeUndated(zone, startAt, ThisWeek, ByWeek, now, first);
        }
      }
    } else {
      var d := ThisWeekMiss(today, first);
      AgreeOnDay(zone, zone.midnight(d), ThisWeek, ByWeek, now, first, Bounds(start, Day(start) + 7));
      assert !AgreeAt(zone, At(zone.midnight(d)), ThisWeek, ByWeek, now, first);
    }
  }

  lemma MonthGroupStart(n: int, grouping: Grouping, first: WeekStart, anchor: int)
    requires grouping == ByMonth
    ensures GroupStart(n, grouping, first, anchor) == MonthStart(KeptMonth(n))
  {
    hide MonthStart, CivilOf, KeptMonth;
    KeptMonthIs(n);
  }

  lemma ThisMonthBounds(today: int, first: WeekStart)
    ensures var month := MonthIndexOf(Day(today));
            DateBounds(ThisMonth, today, first, None, None) == Some(Bounds(MonthStart(month), MonthStart(month + 1)))
  {
    hide MonthStart, CivilOf, Day;
    MovedExact(today);
    var c := CivilOf(Day(today));
    KeptMonthIs(Day(today));
    assert 12 * FullYear(c.year) + (c.month - 1) == MonthIndexOf(Day(today));
  }

  lemma SameMonth(n: int, index: int)
    ensures MonthStart(index) <= n < MonthStart(index + 1) <==> MonthIndexOf(n) == index
  {
    hide MonthStart, MonthIndexOf;
    MonthOfDay(n);
    if MonthStart(index) <= n < MonthStart(index + 1) {
      MonthOfDayUnique(n, index);
    }
  }

  lemma MonthStartsDiffer(i: int, j: int)
    ensures MonthStart(i) == MonthStart(j) <==> i == j
  {
    hide MonthStart;
    if i < j {
      MonthsAscend(i, j);
    } else if j < i {
      MonthsAscend(j, i);
    }
  }

  /** Agreement of "This Month" with the Month grouping on one day. */
  lemma AgreeOnMonth(zone: Zone, t: int, now: int, first: WeekStart)
    requires zone.Valid()
    ensures AgreeAt(zone, At(t), ThisMonth, ByMonth, now, first)
       <==> (MonthIndexOf(zone.day(t)) == MonthIndexOf(Day(zone.day(now))) <==> KeptMonth(zone.day(t)) == KeptMonth(zone.day(now)))
  {
    hide AgreeAt, DateBounds, GroupStart, MonthStart, MonthIndexOf, KeptMonth, Day;
    var today := zone.day(now);
    var month := MonthIndexOf(Day(today));
    ThisMonthBounds(today, first);
    AgreeOnDay(zone, t, ThisMonth, ByMonth, now, first, Bounds(MonthStart(month), MonthStart(month + 1)));
    SameMonth(zone.day(t), month);
    MonthGroupStart(zone.day(t), ByMonth, first, today);
    MonthGroupStart(today, ByMonth, first, today);
    MonthStartsDiffer(KeptMonth(zone.day(t)), KeptMonth(today));
  }

  lemma YearOfMonth(n: int)
    ensures 12 * YearOf(n) <= MonthIndexOf(n) <= 12 * YearOf(n) + 11
    ensures Plain(n) <==> !(0 <= YearOf(n) <= 99)
  {
    hide DaysBeforeYear, YearOf, CivilOf;
    PlainYears(n);
    YearOfCivil(n);
    DayNumberOfCivil(n);
  }

  /** The day on which "This Month" and the Month grouping disagree. */
  lemma ThisMonthMiss(today: int) returns (d: int)
    requires 0 <= YearOf(today) <= 99 || 1900 <= YearOf(today) <= 1999
    ensures !(MonthIndexOf(d) == MonthIndexOf(Day(today)) <==> KeptMonth(d) == KeptMonth(today))
  {
    hide MonthIndexOf, YearOf, Day, MonthStart, Plain;
    YearOfMonth(today);
    YearOfMonth(Day(today));
    MovedExact(today);
    if !Plain(today) {
      d := today;
    } else {
      var index := MonthIndexOf(today) - 12 * 1900;
      d := MonthStart(index);
      MonthsAscend(index, index + 1);
      SameMonth(d, index);
      YearOfMonth(d);
    }
  }

  /**
   "This Month" accepts exactly what the Month grouping puts with the present,
   exactly when the present is in none of the years 0 to 99 and 1900 to 1999,
   which the two-digit year rule runs together.
   */
  lemma ThisMonthIsMonthGroup(zone: Zone, now: int, first: WeekStart)
    requires zone.Valid()
    ensures (forall startAt :: AgreeAt(zone, startAt, ThisMonth, ByMonth, now, first))
       <==> !(0 <= YearOf(zone.day(now)) <= 99 || 1900 <= YearOf(zone.day(now)) <= 1999)
  {
    hide AgreeAt, YearOf, Day, MonthIndexOf, Plain;
    var today := zone.day(now);
    if 0 <= YearOf(today) <= 99 || 1900 <= YearOf(today) <= 1999 {
      var d := ThisMonthMiss(today);
      AgreeOnMonth(zone, zone.midnight(d), now, first);
      assert !AgreeAt(zone, At(zone.midnight(d)), ThisMonth, ByMonth, now, first);
    } else {
      YearOfMonth(today);
      MovedExact(today);
      forall startAt: Stamp
        ensures AgreeAt(zone, startAt, ThisMonth, ByMonth, now, first)
      {
        if startAt.At? {
          AgreeOnMonth(zone, startAt.t, now, first);
          YearOfMonth(zone.day(startAt.t));
        } else {
          AgreeUndated(zone, startAt, ThisMonth, ByMonth, now, first);
        }
      }
    }
  }

  /** "Today" accepts the present local day, "Today & Tomorrow" the next as well, exactly when its year is kept. */
  lemma TodayIsToday(zone: Zone, now: int, first: WeekStart)
    requires zone.Valid()
    ensures (forall t :: Matches(zone, At(t), Today, DateBounds(Today, zone.day(now), first, None, None)) <==> zone.day(t) == zone.day(now))
       <==> Plain(zone.day(now))
    ensures (forall t :: Matches(zone, At(t), TodayAndTomorrow, DateBounds(TodayAndTomorrow, zone.day(now), first, None, None))
                    <==> zone.day(now) <= zone.day(t) <= zone.day(now) + 1)
       <==> Plain(zone.day(now))
  {
    hide Plain, Day, AddDays, Matches;
    var today := zone.day(now);
    MovedExact(today);
    MovedExact(Day(today));
    AddDaysFromDay(Day(today), 1);
    AddDaysFromDay(Day(today), 2);
    forall t
      ensures Matches(zone, At(t), Today, DateBounds(Today, today, first, None, None)) <==> zone.day(t) == Day(today)
      ensures Matches(zone, At(t), TodayAndTomorrow, DateBounds(TodayAndTomorrow, today, first, None, None))
         <==> Day(today) <= zone.day(t) <= Day(today) + 1
    {
      MatchesDays(zone, t, Today, Bounds(Day(today), Day(today) + 1));
      MatchesDays(zone, t, TodayAndTomorrow, Bounds(Day(today), Day(today) + 2));
    }
    assert Matches(zone, At(now), Today, DateBounds(Today, today, first, None, None)) <==> Plain(today);
    assert Matches(zone, At(now), TodayAndTomorrow, DateBounds(TodayAndTomorrow, today, first, None, None)) <==> Plain(today);
  }

  lemma NextWeekBounds(today: int, first: WeekStart)
    ensures var start := Day(WeekStartOf(Day(today), first)) + 7;
            DateBounds(NextWeek, today, first, None, None) == Some(Bounds(start, Day(start) + 7))
  {
    hide Week, Day, AddDays, Plain;
    MovedExact(today);
    WeekExact(Day(today), first);
    AddDaysFromDay(WeekStartOf(Day(today), first), 7);
    AddDaysFromDay(Day(WeekStartOf(Day(today), first)) + 7, 7);
  }

  /** At an instant, "Next Week" accepts it exactly when its week starts seven days after the present one. */
  ghost predicate NextWeekAt(zone: Zone, t: int, now: int, first: WeekStart) {
    Matches(zone, At(t), NextWeek, DateBounds(NextWeek, zone.day(now), first, None, None))
    <==> Week(zone.day(t), first) == Week(zone.day(now), first) + 7
  }

  lemma NextWeekOnDay(zone: Zone, t: int, now: int, first: WeekStart)
    requires zone.Valid()
    ensures var start := Day(WeekStartOf(Day(zone.day(now)), first)) + 7;
            NextWeekAt(zone, t, now, first)
            <==> (start <= zone.day(t) < Day(start) + 7 <==> Week(zone.day(t), first) == Week(zone.day(now), first) + 7)
  {
    hide Week, Day, WeekStartOf, DateBounds, Matches;
    var start := Day(WeekStartOf(Day(zone.day(now)), first)) + 7;
    NextWeekBounds(zone.day(now), first);
    MatchesDays(zone, t, NextWeek, Bounds(start, Day(start) + 7));
  }

  /** The day on which "Next Week" fails when a year of the fourteen days is not kept. */
  lemma NextWeekMiss(today: int, first: WeekStart) returns (d: int)
    requires !PlainDays(WeekStartOf(today, first), 14)
    ensures var start := Day(WeekStartOf(Day(today), first)) + 7;
            !(start <= d < Day(start) + 7 <==> Week(d, first) == Week(today, first) + 7)
  {
    hide Week, Day, WeekStartOf, Weekday, StartsWeek;
    var week := WeekStartOf(today, first);
    var start := Day(WeekStartOf(Day(today), first)) + 7;
    WeekStartIs(today, first);
    WeekStartIs(Day(today), first);
    MovedExact(today);
    MovedExact(week);
    MovedExact(WeekStartOf(Day(today), first));
    MovedExact(start);
    WeekOn(week, first);
    WeekOn(WeekStartOf(Day(today), first), first);
    if !Plain(today) {
      d := start;
      WeekMoves(today, first);
      WeekIs(d, first, start);
      NotWholeWeeks(week, Moved(today), start - 7, first);
    } else {
      d := if Plain(week) && Plain(week + 7) then week + 13 else week + 7;
      WeekIs(today, first, week);
      WeekIs(d, first, week + 7);
      WeekExact(today, first);
    }
  }

  lemma NotWholeWeeks(week: int, moved: int, start: int, first: WeekStart)
    requires StartsWeek(week, first) && StartsWeek(start, first) && 693960 <= moved <= 693961
    ensures week + moved != start
  {
    SameStart(week, week, moved, first, start);
  }

  /**
   "Next Week" accepts exactly the events whose week starts seven days after the
   present one, exactly when the years of this week and the next are kept.
   */
  lemma NextWeekFollows(zone: Zone, now: int, first: WeekStart)
    requires zone.Valid()
    ensures (forall t :: NextWeekAt(zone, t, now, first)) <==> PlainDays(WeekStartOf(zone.day(now), first), 14)
  {
    hide Week, Day, WeekStartOf, NextWeekAt, Weekday, StartsWeek;
    var today := zone.day(now);
    if PlainDays(WeekStartOf(today, first), 14) {
      var week := WeekStartOf(today, first);
      WeekStartIs(today, first);
      MovedExact(today);
      MovedExact(week);
      MovedExact(week + 7);
      WeekOn(week, first);
      WeekIs(today, first, week);
      forall t
        ensures NextWeekAt(zone, t, now, first)
      {
        NextWeekOnDay(zone, t, now, first);
        WeekIs(zone.day(t), first, week + 7);
      }
    } else {
      var d := NextWeekMiss(today, first);
      NextWeekOnDay(zone, zone.midnight(d), now, first);
      assert !NextWeekAt(zone, zone.midnight(d), now, first);
    }
  }

  /**
   "Next Week" starts where "This Week" ends and no event is in both; each is
   seven days long exactly when the years of both weeks' starts are kept.  An
   event without a date is in "Unscheduled" and in no other preset.
   */
  lemma WeeksAdjacent(zone: Zone, startAt: Stamp, now: int, first: WeekStart, preset: Preset, bounds: Option<Bounds>)
    requires zone.Valid()
    ensures var thisWeek, next := DateBounds(ThisWeek, now, first, None, None), DateBounds(NextWeek, now, first, None, None);
            && thisWeek.Some? && next.Some? && thisWeek.value.end == next.value.start
            && !(Matches(zone, startAt, ThisWeek, thisWeek) && Matches(zone, startAt, NextWeek, next))
            && (thisWeek.value.end == thisWeek.value.start + 7 && next.value.end == next.value.start + 7
                <==> Plain(WeekStartOf(Day(now), first)) && Plain(WeekStartOf(Day(now), first) + 7))
    ensures Matches(zone, startAt, Unscheduled, None) && preset != Unscheduled ==> !Matches(zone, startAt, preset, bounds)
  {
    hide Week, WeekStartOf, Plain, Day, DateBounds, Matches;
    var start := WeekStartOf(Day(now), first);
    ThisWeekBounds(now, first);
    NextWeekBounds(now, first);
    MovedExact(start);
    MovedExact(Day(start) + 7);
    if startAt.At? {
      MatchesDays(zone, startAt.t, ThisWeek, Bounds(start, Day(start) + 7));
      MatchesDays(zone, startAt.t, NextWeek, Bounds(Day(start) + 7, Day(Day(start) + 7) + 7));
    } else {
      NoDateNoMatch(zone, startAt, ThisWeek);
    }
    UndatedOnlyUnscheduled(zone, startAt, preset, bounds);
  }

  lemma NoDateNoMatch(zone: Zone, startAt: Stamp, preset: Preset)
    requires !startAt.At? && preset != Unscheduled
    ensures forall bounds :: !Matches(zone, startAt, preset, bounds)
  {
  }

  lemma UndatedOnlyUnscheduled(zone: Zone, startAt: Stamp, preset: Preset, bounds: Option<Bounds>)
    ensures Matches(zone, startAt, Unscheduled, None) && preset != Unscheduled ==> !Matches(zone, startAt, preset, bounds)
  {
  }

  /** A day so many months after another: on its day of the month, or that month's last. */
  predicate MonthsLater(e: int, n: int, months: int) {
    && MonthIndexOf(e) == MonthIndexOf(n) + months
    && DayOfMonth(e) == Least(DayOfMonth(n), MonthDays(MonthIndexOf(n) + months))
  }

  /** There is exactly one such day. */
  lemma MonthsLaterOnce(n: int, months: int) returns (e: int)
    ensures forall d :: MonthsLater(d, n, months) <==> d == e
  {
    hide MonthStart, MonthDays, MonthIndexOf, DayOfMonth;
    var index := MonthIndexOf(n) + months;
    e := MonthStart(index) + Least(DayOfMonth(n), MonthDays(index)) - 1;
    MonthOfDay(n);
    MonthStep(index);
    MonthOfDayUnique(e, index);
    forall d
      ensures MonthsLater(d, n, months) <==> d == e
    {
      MonthOfDay(d);
    }
  }

  /**
   "Next 6 Months" and "Next 12 Months" accept exactly the events from the present
   day up to, and not including, the day six or twelve months later.
   */
  lemma NextMonthsExact(zone: Zone, t: int, now: int, first: WeekStart, six: int, twelve: int)
    requires zone.Valid()
    requires MonthsLater(six, Day(zone.day(now)), 6) && MonthsLater(twelve, Day(zone.day(now)), 12)
    ensures Matches(zone, At(t), Next6Months, DateBounds(Next6Months, zone.day(now), first, None, None))
       <==> Day(zone.day(now)) <= zone.day(t) < six
    ensures Matches(zone, At(t), Next12Months, DateBounds(Next12Months, zone.day(now), first, None, None))
       <==> Day(zone.day(now)) <= zone.day(t) < twelve
  {
    hide AddMonths, Day, Matches, MonthsLater;
    var today := Day(zone.day(now));
    AddMonthsIs(zone.day(now), 6);
    AddMonthsIs(zone.day(now), 12);
    var s := MonthsLaterOnce(today, 6);
    var w := MonthsLaterOnce(today, 12);
    MatchesDays(zone, t, Next6Months, Bounds(today, six));
    MatchesDays(zone, t, Next12Months, Bounds(today, twelve));
  }

  lemma AddMonthsIs(n: int, months: int)
    ensures MonthsLater(AddMonths(Day(n), months), Day(n), months)
  {
    hide AddMonths, Day, MonthIndexOf, DayOfMonth, MonthDays, MonthStart;
    MovedExact(n);
    AddMonthsLands(Day(n), months);
  }

  /** An event without a start is in "Unscheduled" and nowhere else, one with an unreadable start nowhere, and no other is in "Unscheduled". */
  lemma UnscheduledExact(zone: Zone, startAt: Stamp, preset: Preset, bounds: Option<Bounds>)
    ensures startAt == Blank ==> (Matches(zone, startAt, preset, bounds) <==> preset == Unscheduled)
    ensures startAt == Malformed ==> !Matches(zone, startAt, preset, bounds)
    ensures startAt.At? && preset == Unscheduled ==> !Matches(zone, startAt, preset, bounds)
  {
  }

  /** What the groups are called: by the first of the month, by the week's start, and "unscheduled". */
  lemma GroupsNamed(zone: Zone, startAt: Stamp, grouping: Grouping, first: WeekStart, anchor: int)
    ensures !startAt.At? ==> GroupKey(zone, startAt, grouping, first, anchor) == "unscheduled"
    ensures startAt.At? ==>
              var n := zone.day(startAt.t);
              var start := GroupStart(n, grouping, first, anchor);
              && GroupKey(zone, startAt, grouping, first, anchor) == LocalDateKey(start)
              && (grouping == ByMonth ==> MonthIndexOf(start) == KeptMonth(n) && DayOfMonth(start) == 1)
              && (grouping == ByWeek ==> start == WeekStartOf(n, first) + Moved(n))
  {
    hide LocalDateKey, MonthStart, MonthDays, MonthIndexOf, DayOfMonth, KeptMonth, WeekStartOf, Moved, Week;
    if startAt.At? {
      var n := zone.day(startAt.t);
      WeekMoves(n, first);
      if grouping == ByMonth {
        MonthGroupStart(n, grouping, first, anchor);
        MonthStep(KeptMonth(n));
        MonthOfDayUnique(MonthStart(KeptMonth(n)), KeptMonth(n));
      }
    }
  }

  /** Whatever "Next 6 Months" accepts, "Next 12 Months" accepts too. */
  lemma SixMonthsWithinTwelve(zone: Zone, startAt: Stamp, now: int, first: WeekStart)
    requires zone.Valid()
    ensures Matches(zone, startAt, Next6Months, DateBounds(Next6Months, now, first, None, None))
        ==> Matches(zone, startAt, Next12Months, DateBounds(Next12Months, now, first, None, None))
  {
    hide AddMonths, Day;
    AddMonthsAscends(Day(now), 6, 12);
    if startAt.At? {
      MatchesDays(zone, startAt.t, Next6Months, Bounds(Day(now), AddMonths(Day(now), 6)));
      MatchesDays(zone, startAt.t, Next12Months, Bounds(Day(now), AddMonths(Day(now), 12)));
    }
  }

  /**
   From the two texts of a custom range to the events shown: exactly those whose
   local day is from the first day to the last, both included, when both texts
   are keys of real days of four-digit years.
   */
  lemma CustomRangeDays(zone: Zone, t: int, now: int, first: WeekStart, from: string, to: string, lenient: string -> Option<int>)
    requires zone.Valid()
    ensures Matches(zone, At(t), CustomRange,
                    DateBounds(CustomRange, now, first, ParseDay(from, lenient), ParseDay(to, lenient)))
       <==> exists a, b :: IsKeyOf(from, a) && IsKeyOf(to, b) && a <= zone.day(t) <= b
  {
    hide ParseDay, AddDays, IsKeyOf, LocalDateKey;
    var start, last := ParseDay(from, lenient), ParseDay(to, lenient);
    forall n
      ensures (start == Some(n) <==> IsKeyOf(from, n)) && (last == Some(n) <==> IsKeyOf(to, n))
    {
      KeyTaken(from, lenient, n);
      KeyTaken(to, lenient, n);
    }
    if start.Some? && last.Some? && start.value <= last.value {
      KeyTaken(to, lenient, last.value);
      AddDaysExact(last.value, 1);
      MatchesDays(zone, t, CustomRange, Bounds(start.value, last.value + 1));
    }
  }

  predicate IsKeyOf(value: string, n: int) {
    value == LocalDateKey(n) && 1000 <= CivilOf(n).year <= 9999
  }

  lemma KeyTaken(value: string, lenient: string -> Option<int>, n: int)
    ensures ParseDay(value, lenient) == Some(n) <==> IsKeyOf(value, n)
    ensures IsKeyOf(value, n) ==> Plain(n)
  {
    ParseDayExact(value, lenient, n);
    YearOfCivil(n);
    PlainYears(n);
  }
}
