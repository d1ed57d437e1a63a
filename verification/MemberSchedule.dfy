/**
 The member schedule (legacy/web/member-schedule.tsx): the calendar of cells and
 the list of rows drawn for one period.  Dates at noon UTC are day numbers.
 */
module MemberSchedule {
  import opened Calendar
  import opened Text
  import opened Wrappers
  import opened ScheduleDates

  datatype Period = Month | Week | Day

  datatype Event = Event(start: int, end: Option<int>, participants: set<string>, kind: string, state: string)

  /** The three filters; an empty one lets everything through. */
  datatype Filter = Filter(person: string, kind: string, state: string) {
    predicate Accepts(e: Event) {
      && (person == "" || person in e.participants)
      && (kind == "" || e.kind == kind)
      && (state == "" || e.state == state)
    }
  }

  // ---- The period around the anchor

  function First(anchor: int, period: Period, weekStart: WeekStart): int {
    match period
    case Month => MakeDay(CivilOf(anchor).year, CivilOf(anchor).month - 1, 1)
    case Week => AddDays(anchor, -SinceWeekStart(anchor, weekStart))
    case Day => anchor
  }

  function Last(anchor: int, period: Period, weekStart: WeekStart): int {
    match period
    case Month => MakeDay(CivilOf(anchor).year, CivilOf(anchor).month, 0)
    case Week => AddDays(First(anchor, Week, weekStart), 6)
    case Day => anchor
  }

  function GridStart(anchor: int, period: Period, weekStart: WeekStart): int {
    var first := First(anchor, period, weekStart);
    if period == Month then AddDays(first, -SinceWeekStart(first, weekStart)) else first
  }

  function CellCount(period: Period): nat {
    match period
    case Month => 42
    case Week => 7
    case Day => 1
  }

  function Cells(anchor: int, period: Period, weekStart: WeekStart): seq<int> {
    var start := GridStart(anchor, period, weekStart);
    seq(CellCount(period), i => AddDays(start, i))
  }

  // ---- Which events appear where; days are compared as text

  /** A day after the start for an event with an end: the day of its last millisecond. */
  function LastEventDay(zone: Zone, e: Event): int {
    if e.end.Some? then zone.day(e.end.value - 1) else zone.day(e.start)
  }

  predicate KeyAtMost(a: int, b: int) {
    !TextLess(LocalDateKey(b), LocalDateKey(a))
  }

  predicate OnDay(zone: Zone, e: Event, day: int) {
    KeyAtMost(zone.day(e.start), day) && KeyAtMost(day, LastEventDay(zone, e))
  }

  predicate InRows(zone: Zone, e: Event, first: int, last: int) {
    KeyAtMost(zone.day(e.start), last) && KeyAtMost(first, LastEventDay(zone, e))
  }

  function Rows(zone: Zone, events: seq<Event>, filter: Filter, first: int, last: int): seq<Event> {
    if events == [] then []
    else
      var rest := Rows(zone, events[1..], filter, first, last);
      if filter.Accepts(events[0]) && InRows(zone, events[0], first, last) then [events[0]] + rest else rest
  }

  /** The events drawn in the cell of `day`. */
  function InCell(zone: Zone, events: seq<Event>, filter: Filter, day: int): seq<Event> {
    if events == [] then []
    else
      var rest := InCell(zone, events[1..], filter, day);
      if filter.Accepts(events[0]) && OnDay(zone, events[0], day) then [events[0]] + rest else rest
  }

  function Shifted(anchor: int, period: Period, direction: int): int {
    match period
    case Month => MakeDay(CivilOf(anchor).year, CivilOf(anchor).month - 1 + direction, 1)
    case Week => AddDays(anchor, direction * 7)
    case Day => AddDays(anchor, direction)
  }

  /** The state of the screen and the buttons that change it. */
  class ScheduleView {
    var anchor: int
    var period: Period
    var filter: Filter

    constructor (today: int)
      ensures anchor == today && period == Month && filter == Filter("", "", "")
    {
      anchor, period, filter := today, Month, Filter("", "", "");
    }

    method Shift(direction: int)
      modifies this
      ensures anchor == Shifted(old(anchor), period, direction)
      ensures period == old(period) && filter == old(filter)
    {
      if period == Month {
        anchor := MakeDay(CivilOf(anchor).year, CivilOf(anchor).month - 1 + direction, 1);
      } else {
        anchor := AddDays(anchor, direction * (if period == Week then 7 else 1));
      }
    }

    method ClearFilters()
      modifies this
      ensures forall e :: filter.Accepts(e)
      ensures anchor == old(anchor) && period == old(period)
    {
      filter := Filter("", "", "");
    }
  }

  // ---- The cells

  /** Where the period lies in the grid. */
  lemma PeriodInGrid(anchor: int, period: Period, weekStart: WeekStart)
    ensures var first, last, start := First(anchor, period, weekStart), Last(anchor, period, weekStart), GridStart(anchor, period, weekStart);
            && first <= last
            && start <= first <= start + 6
            && (Plain(start) ==> last < start + CellCount(period))
  {
    hide CivilOf, AddDays, MakeDay, Plain, MonthStart, MonthDays, SinceWeekStart;
    var first := First(anchor, period, weekStart);
    match period
    case Month =>
      MonthFirstAndLast(anchor);
      AddDaysExact(first, -SinceWeekStart(first, weekStart));
    case Week =>
      AddDaysExact(first, 6);
    case Day =>
  }

  lemma MonthFirstAndLast(anchor: int)
    ensures var first := MakeDay(CivilOf(anchor).year, CivilOf(anchor).month - 1, 1);
            && Plain(first)
            && MakeDay(CivilOf(anchor).year, CivilOf(anchor).month, 0) == first + MonthDays(MonthIndexOf(first)) - 1
            && first == MonthStart(MonthIndexOf(first))
            && (Plain(anchor) ==> MonthIndexOf(first) == MonthIndexOf(anchor))
  {
    hide MonthStart, MonthDays, CivilOf, YearOf, DayNumber, DaysInMonth, Plain;
    var c := CivilOf(anchor);
    PlainYears(anchor);
    DayNumberOfCivil(anchor);
    YearOfCivil(anchor);
    var index := 12 * FullYear(c.year) + (c.month - 1);
    var first := MonthStart(index);
    MonthStep(index);
    MonthOfDayUnique(first, index);
    MonthOfDay(first);
    PlainYears(first);
    assert index / 12 == FullYear(c.year);
  }

  /** Each cell of the grid is the day after the one before, unless its start is in years 0 to 99. */
  lemma CellAt(anchor: int, period: Period, weekStart: WeekStart, i: nat)
    requires i < CellCount(period)
    ensures var start := GridStart(anchor, period, weekStart);
            && |Cells(anchor, period, weekStart)| == CellCount(period)
            && (Plain(start) ==> Cells(anchor, period, weekStart)[i] == start + i)
            && (!Plain(start) ==> Cells(anchor, period, weekStart)[i] > start + i + 6)
  {
    hide GridStart, AddDays, Plain;
    AddDaysExact(GridStart(anchor, period, weekStart), i);
  }

  ghost predicate DrawnOnce(cells: seq<int>, day: int) {
    exists i :: 0 <= i < |cells| && cells[i] == day && forall j :: 0 <= j < |cells| && cells[j] == day ==> j == i
  }

  /**
   The grid draws every day of the period exactly once, for every period and
   week start, exactly when the constructor keeps the year of the grid's start.
   */
  lemma CellsCoverPeriod(anchor: int, period: Period, weekStart: WeekStart)
    ensures (forall day :: First(anchor, period, weekStart) <= day <= Last(anchor, period, weekStart)
                       ==> DrawnOnce(Cells(anchor, period, weekStart), day))
       <==> Plain(GridStart(anchor, period, weekStart))
  {
    hide GridStart, First, Last, AddDays, Plain;
    PeriodInGrid(anchor, period, weekStart);
    var first, last := First(anchor, period, weekStart), Last(anchor, period, weekStart);
    var start, cells := GridStart(anchor, period, weekStart), Cells(anchor, period, weekStart);
    forall i | 0 <= i < CellCount(period)
      ensures Plain(start) ==> cells[i] == start + i
      ensures !Plain(start) ==> cells[i] > start + 6
    {
      CellAt(anchor, period, weekStart, i);
    }
    if Plain(start) {
      forall day | first <= day <= last
        ensures DrawnOnce(cells, day)
      {
        assert cells[day - start] == day;
      }
    } else {
      assert !DrawnOnce(cells, first);
    }
  }

  /** The period shown: the anchor's month, its week from the last `weekStart` weekday on, or its day. */
  lemma PeriodExact(anchor: int, period: Period, weekStart: WeekStart)
    ensures var first, last := First(anchor, period, weekStart), Last(anchor, period, weekStart);
            match period
            case Month =>
              && MonthIndexOf(first) == MonthIndexOf(last) == KeptMonth(anchor)
              && DayOfMonth(first) == 1 && DayOfMonth(last) == MonthDays(KeptMonth(anchor))
            case Week =>
              && (first <= anchor < first + 7 && Weekday(first) == weekStart <==> Plain(anchor))
              && (last == first + 6 <==> Plain(first))
            case Day => first == anchor == last
  {
    hide First, Last, WeekStartOf, Moved, MonthStart, MonthDays, MonthIndexOf, DayOfMonth, KeptMonth, Weekday, Plain;
    match period
    case Month =>
      MonthIs(anchor, weekStart);
      MonthStep(KeptMonth(anchor));
      MonthOfDayUnique(MonthStart(KeptMonth(anchor)), KeptMonth(anchor));
      MonthOfDayUnique(MonthStart(KeptMonth(anchor) + 1) - 1, KeptMonth(anchor));
    case Week =>
      WeekPeriod(anchor, weekStart, 0);
      WeekStartNear(anchor, weekStart);
      StartWeekday(anchor, weekStart);
      MovedExact(anchor);
      MovedExact(First(anchor, Week, weekStart));
    case Day => DayIs(anchor, weekStart);
  }

  lemma DayIs(anchor: int, weekStart: WeekStart)
    ensures First(anchor, Day, weekStart) == anchor == Last(anchor, Day, weekStart)
  {
  }

  /**
   The grid: six weeks for a month, one for a week, one cell for a day, each the
   day after the one before; it starts less than a week before the period, and a
   month's columns start on `weekStart`.
   */
  lemma GridExact(anchor: int, period: Period, weekStart: WeekStart, i: nat)
    requires Plain(GridStart(anchor, period, weekStart))
    ensures var cells, first := Cells(anchor, period, weekStart), First(anchor, period, weekStart);
            && |cells| == (match period case Month => 42 case Week => 7 case Day => 1)
            && (i < |cells| ==> cells[i] == cells[0] + i)
            && cells[0] <= first < cells[0] + 7
            && (period != Month ==> cells[0] == first)
            && (period == Month ==> Weekday(cells[0]) == weekStart)
  {
    hide First, Cells, Plain, Weekday, WeekStartOf, Moved, SinceWeekStart, AddDays;
    CellAt(anchor, period, weekStart, 0);
    if i < CellCount(period) {
      CellAt(anchor, period, weekStart, i);
    }
    var first := First(anchor, period, weekStart);
    if period == Month {
      MonthFirstPlain(anchor, weekStart);
      WeekStartIs(first, weekStart);
      AddDaysExact(first, -SinceWeekStart(first, weekStart));
    }
  }

  lemma MonthFirstPlain(anchor: int, weekStart: WeekStart)
    ensures Plain(First(anchor, Month, weekStart))
  {
    hide CivilOf, MakeDay, Plain, MonthStart, MonthDays, MonthIndexOf;
    MonthFirstAndLast(anchor);
  }

  // ---- Rows and cells

  /** The text order of keys is the order of the days they name. */
  lemma KeyOrder(a: int, b: int)
    requires FourDigitYear(a) && FourDigitYear(b)
    ensures KeyAtMost(a, b) <==> a <= b
  {
    hide CivilOf, IntText, Pad2, NatText, NatValue, TextLess, DayNumber, FourDigitYear;
    KeyText(a);
    KeyText(b);
    var c, d := CivilOf(a), CivilOf(b);
    DayNumberOfCivil(a);
    DayNumberOfCivil(b);
    DayLimit(c.year, c.month);
    DayLimit(d.year, d.month);
    DayNumberOrders(d, c);
    FixedWidthOrder(d.year, c.year, NatText(d.year), NatText(c.year));
    Pad2Order(d.month, c.month);
    Pad2Order(d.day, c.day);
    var restB, restA := "-" + Pad2(d.month) + "-" + Pad2(d.day), "-" + Pad2(c.month) + "-" + Pad2(c.day);
    TextLessConcat(NatText(d.year), NatText(c.year), restB, restA);
    SeparatedOrder(Pad2(d.month), Pad2(c.month), Pad2(d.day), Pad2(c.day));
  }

  lemma KeyText(n: int)
    requires FourDigitYear(n)
    ensures var c := CivilOf(n);
            && c.Valid() && c.year >= 0 && |NatText(c.year)| == 4
            && LocalDateKey(n) == NatText(c.year) + ("-" + Pad2(c.month) + "-" + Pad2(c.day))
  {
    hide CivilOf, Pad2, NatText, DayNumber, DaysInMonth, FourDigitYear;
    FourDigitYears(n);
    YearOfCivil(n);
    DayNumberOfCivil(n);
    NatTextLength(CivilOf(n).year);
    var c := CivilOf(n);
    assert NatText(c.year) + "-" + Pad2(c.month) + "-" + Pad2(c.day)
        == NatText(c.year) + ("-" + Pad2(c.month) + "-" + Pad2(c.day));
  }

  lemma FixedWidthOrder(a: nat, b: nat, s: string, t: string)
    requires s == NatText(a) && t == NatText(b) && |s| == |t|
    ensures TextLess(s, t) <==> a < b
    ensures s == t <==> a == b
  {
    NatValueOfText(a);
    NatValueOfText(b);
    TextLessDigits(s, t);
  }

  lemma Pad2Order(a: nat, b: nat)
    requires a <= 99 && b <= 99
    ensures TextLess(Pad2(a), Pad2(b)) <==> a < b
    ensures Pad2(a) == Pad2(b) <==> a == b
    ensures |Pad2(a)| == |Pad2(b)|
  {
    Pad2Value(a);
    Pad2Value(b);
    TextLessDigits(Pad2(a), Pad2(b));
  }

  lemma SeparatedOrder(a: string, b: string, c: string, d: string)
    requires |a| == |b|
    ensures TextLess("-" + a + "-" + c, "-" + b + "-" + d) <==> TextLess(a, b) || (a == b && TextLess(c, d))
  {
    assert "-" + a + "-" + c == "-" + (a + ("-" + c)) && "-" + b + "-" + d == "-" + (b + ("-" + d));
    TextLessConcat("-", "-", a + ("-" + c), b + ("-" + d));
    TextLessConcat(a, b, "-" + c, "-" + d);
    TextLessConcat("-", "-", c, d);
    DashNotLess();
  }

  lemma DashNotLess()
    ensures !TextLess("-", "-")
  {
    assert "-"[1..] == "";
  }

  /** The event is drawn in a cell of the grid that belongs to the period. */
  ghost predicate DrawnInPeriod(zone: Zone, e: Event, cells: seq<int>, first: int, last: int) {
    exists i :: 0 <= i < |cells| && first <= cells[i] <= last && OnDay(zone, e, cells[i])
  }

  /** Every day that the comparison of texts has to order is in a year of four digits. */
  predicate Comparable(zone: Zone, e: Event, first: int, last: int) {
    && FourDigitYear(first) && FourDigitYear(last)
    && FourDigitYear(zone.day(e.start)) && FourDigitYear(LastEventDay(zone, e))
  }

  /**
   The list and the calendar show an event in the same periods, save for periods
   that its start and its last day, in the wrong order, both reach.
   */
  lemma RowsAgreeWithCells(zone: Zone, e: Event, anchor: int, period: Period, weekStart: WeekStart)
    requires Comparable(zone, e, First(anchor, period, weekStart), Last(anchor, period, weekStart))
    ensures var first, last := First(anchor, period, weekStart), Last(anchor, period, weekStart);
            ((InRows(zone, e, first, last) <==> DrawnInPeriod(zone, e, Cells(anchor, period, weekStart), first, last))
             <==> !(first <= LastEventDay(zone, e) < zone.day(e.start) <= last))
  {
    hide GridStart, First, Last, KeyAtMost, Cells, LastEventDay;
    var first, last := First(anchor, period, weekStart), Last(anchor, period, weekStart);
    var cells := Cells(anchor, period, weekStart);
    PeriodInGrid(anchor, period, weekStart);
    assert Plain(GridStart(anchor, period, weekStart));
    CellsCoverPeriod(anchor, period, weekStart);
    KeyOrder(zone.day(e.start), last);
    KeyOrder(first, LastEventDay(zone, e));
    forall day | first <= day <= last
      ensures OnDay(zone, e, day) <==> zone.day(e.start) <= day <= LastEventDay(zone, e)
    {
      KeyOrder(zone.day(e.start), day);
      KeyOrder(day, LastEventDay(zone, e));
    }
    var day := if first <= zone.day(e.start) then zone.day(e.start) else first;
    if first <= day <= last {
      assert DrawnOnce(cells, day);
    }
  }

  /** What the server stores: an end, if any, after the start. */
  predicate Saved(e: Event) {
    e.end.Some? ==> e.start < e.end.value
  }

  /** The event is on at this instant; without an end, at its start only. */
  predicate OnAt(e: Event, t: int) {
    if e.end.Some? then e.start <= t < e.end.value else t == e.start
  }

  /** The days of a stored event, and so where it is drawn and listed: those of the instants it is on at. */
  lemma EventDays(zone: Zone, e: Event, first: int, last: int)
    requires zone.Valid() && Saved(e) && first <= last
    ensures zone.day(e.start) <= last && first <= LastEventDay(zone, e)
       <==> exists t :: OnAt(e, t) && first <= zone.day(t) <= last
  {
    if zone.day(e.start) <= last && first <= LastEventDay(zone, e) {
      var t := if first <= zone.day(e.start) then e.start else zone.midnight(first);
      if first > zone.day(e.start) {
        assert zone.midnight(first) > e.start && zone.day(zone.midnight(first)) == first;
        assert e.end.Some? ==> zone.midnight(first) <= e.end.value - 1;
      }
      assert OnAt(e, t) && first <= zone.day(t) <= last;
    }
    if t :| OnAt(e, t) && first <= zone.day(t) <= last {
      DaysFollow(zone, e.start, t);
      if e.end.Some? {
        DaysFollow(zone, t, e.end.value - 1);
      }
    }
  }

  lemma DaysFollow(zone: Zone, s: int, t: int)
    requires zone.Valid() && s <= t
    ensures zone.day(s) <= zone.day(t)
  {
    assert zone.midnight(zone.day(s)) <= s;
  }

  /** A stored event is drawn in a cell exactly when it is on at some instant of the cell's day. */
  lemma CellExact(zone: Zone, e: Event, day: int)
    requires zone.Valid() && Saved(e) && Comparable(zone, e, day, day)
    ensures OnDay(zone, e, day) <==> exists t :: OnAt(e, t) && zone.day(t) == day
  {
    hide KeyAtMost, LastEventDay, Zone.Valid;
    KeyOrder(zone.day(e.start), day);
    KeyOrder(day, LastEventDay(zone, e));
    EventDays(zone, e, day, day);
    assert forall t :: zone.day(t) == day <==> day <= zone.day(t) <= day;
  }

  /**
   The list of a period holds exactly the stored events that pass the filters that
   are set and are on at some instant of the period.
   */
  lemma RowsExact(zone: Zone, events: seq<Event>, filter: Filter, first: int, last: int, e: Event)
    requires zone.Valid() && first <= last
    requires e in events ==> Saved(e) && Comparable(zone, e, first, last)
    ensures e in Rows(zone, events, filter, first, last)
       <==> && e in events
            && (filter.person != "" ==> filter.person in e.participants)
            && (filter.kind != "" ==> filter.kind == e.kind)
            && (filter.state != "" ==> filter.state == e.state)
            && exists t :: OnAt(e, t) && first <= zone.day(t) <= last
  {
    hide KeyAtMost, LastEventDay, Zone.Valid, Rows, OnAt;
    RowsContents(zone, events, filter, first, last, e);
    if e in events {
      KeyOrder(zone.day(e.start), last);
      KeyOrder(first, LastEventDay(zone, e));
      EventDays(zone, e, first, last);
    }
  }

  /** List and cells keep the given order, each event as often as it is given. */
  lemma {:induction false} ListsInOrder(zone: Zone, a: seq<Event>, b: seq<Event>, filter: Filter, first: int, last: int, day: int)
    ensures Rows(zone, a + b, filter, first, last) == Rows(zone, a, filter, first, last) + Rows(zone, b, filter, first, last)
    ensures InCell(zone, a + b, filter, day) == InCell(zone, a, filter, day) + InCell(zone, b, filter, day)
    ensures |a| == 1 ==> |Rows(zone, a, filter, first, last)| <= 1 && |InCell(zone, a, filter, day)| <= 1
  {
    hide InRows, OnDay, Filter.Accepts;
    if a == [] {
      assert a + b == b;
    } else {
      ListsInOrder(zone, a[1..], b, filter, first, last, day);
      assert (a + b)[1..] == a[1..] + b;
    }
  }

  /** Every event the server stores is listed exactly when it is drawn. */
  lemma RowsAreCells(zone: Zone, e: Event, anchor: int, period: Period, weekStart: WeekStart)
    requires zone.Valid() && Saved(e)
    requires Comparable(zone, e, First(anchor, period, weekStart), Last(anchor, period, weekStart))
    ensures var first, last := First(anchor, period, weekStart), Last(anchor, period, weekStart);
            InRows(zone, e, first, last) <==> DrawnInPeriod(zone, e, Cells(anchor, period, weekStart), first, last)
  {
    hide GridStart, First, Last, Plain, InRows, DrawnInPeriod, Comparable;
    RowsAgreeWithCells(zone, e, anchor, period, weekStart);
    assert zone.midnight(zone.day(e.start)) <= e.start;
  }

  /**
   Why events must be stored ones: one that starts and ends at one midnight, on any
   day of a month but its first, would be listed for the month and drawn on no day.
   */
  lemma EmptyEventOnlyListed(zone: Zone, n: int, weekStart: WeekStart)
    requires zone.Valid() && FourDigitYear(n) && DayOfMonth(n) > 1
    ensures var e := Event(zone.midnight(n), Some(zone.midnight(n)), {}, "Game", "Scheduled");
            var first, last := First(n, Month, weekStart), Last(n, Month, weekStart);
            InRows(zone, e, first, last) && !DrawnInPeriod(zone, e, Cells(n, Month, weekStart), first, last)
  {
    hide GridStart, KeyAtMost, Cells, DayOfMonth, DrawnInPeriod, First, Last, Zone.Valid;
    var e := Event(zone.midnight(n), Some(zone.midnight(n)), {}, "Game", "Scheduled");
    MonthAround(n, weekStart);
    BeforeMidnight(zone, n);
    assert LastEventDay(zone, e) == n - 1;
    KeyOrder(n, Last(n, Month, weekStart));
    KeyOrder(First(n, Month, weekStart), n - 1);
    RowsAgreeWithCells(zone, e, n, Month, weekStart);
  }

  lemma BeforeMidnight(zone: Zone, n: int)
    requires zone.Valid()
    ensures zone.day(zone.midnight(n)) == n && zone.day(zone.midnight(n) - 1) == n - 1
  {
    var t := zone.midnight(n) - 1;
    assert zone.midnight(n - 1) <= t <==> n - 1 <= zone.day(t);
    assert zone.midnight(n) <= t <==> n <= zone.day(t);
    assert zone.midnight(n) <= zone.midnight(n - 1) <==> n <= zone.day(zone.midnight(n - 1));
  }

  /** A day of a four-digit year lies in its month, which lies in such years. */
  lemma MonthAround(n: int, weekStart: WeekStart)
    requires FourDigitYear(n)
    ensures First(n, Month, weekStart) == n - DayOfMonth(n) + 1 && n <= Last(n, Month, weekStart)
    ensures FourDigitYear(First(n, Month, weekStart)) && FourDigitYear(Last(n, Month, weekStart))
  {
    hide MonthStart, MonthDays, DayOfMonth, MonthIndexOf, CivilOf, MakeDay, YearOf, FourDigitYear;
    assert Plain(n) by { PlainYears(n); FourDigitYears(n); }
    MonthFirstAndLast(n);
    MonthOfDay(n);
    var index := MonthIndexOf(n);
    MonthStep(index);
    SameYear(n, index, MonthStart(index));
    SameYear(n, index, MonthStart(index + 1) - 1);
  }

  lemma SameYear(n: int, index: int, m: int)
    requires index == MonthIndexOf(n) && MonthStart(index) <= m < MonthStart(index + 1)
    ensures FourDigitYear(m) <==> FourDigitYear(n)
  {
    hide MonthStart, MonthIndexOf, YearOf, FourDigitYear;
    MonthOfDay(n);
    MonthOfDay(m);
    MonthOfDayUnique(m, index);
    FourDigitYears(n);
    FourDigitYears(m);
  }

  /** Membership in the list and in the cells, for the filtered sequences the screen renders. */
  lemma {:induction false} RowsContents(zone: Zone, events: seq<Event>, filter: Filter, first: int, last: int, e: Event)
    ensures e in Rows(zone, events, filter, first, last)
       <==> e in events && filter.Accepts(e) && InRows(zone, e, first, last)
  {
    if events != [] {
      RowsContents(zone, events[1..], filter, first, last, e);
    }
  }

  lemma {:induction false} CellContents(zone: Zone, events: seq<Event>, filter: Filter, day: int, e: Event)
    ensures e in InCell(zone, events, filter, day)
       <==> e in events && filter.Accepts(e) && OnDay(zone, e, day)
  {
    if events != [] {
      CellContents(zone, events[1..], filter, day, e);
    }
  }

  /** For all stored events: the list holds exactly what the period's cells hold together. */
  lemma ListIsCalendar(zone: Zone, events: seq<Event>, filter: Filter, anchor: int, period: Period, weekStart: WeekStart, e: Event)
    requires zone.Valid()
    requires e in events ==> Saved(e)
                             && Comparable(zone, e, First(anchor, period, weekStart), Last(anchor, period, weekStart))
    ensures var first, last, cells := First(anchor, period, weekStart), Last(anchor, period, weekStart), Cells(anchor, period, weekStart);
            (e in Rows(zone, events, filter, first, last)
             <==> exists i :: 0 <= i < |cells| && first <= cells[i] <= last && e in InCell(zone, events, filter, cells[i]))
  {
    hide GridStart, First, Last, Plain, InRows, OnDay, Comparable, Cells, Rows, InCell;
    var first, last, cells := First(anchor, period, weekStart), Last(anchor, period, weekStart), Cells(anchor, period, weekStart);
    RowsContents(zone, events, filter, first, last, e);
    forall i | 0 <= i < |cells|
      ensures e in InCell(zone, events, filter, cells[i]) <==> e in events && filter.Accepts(e) && OnDay(zone, e, cells[i])
    {
      CellContents(zone, events, filter, cells[i], e);
    }
    if e in events {
      RowsAreCells(zone, e, anchor, period, weekStart);
    }
  }

  // ---- Moving between periods

  /** The constructor keeps the years it has to move through to get to the next period. */
  predicate NextPlain(anchor: int, period: Period, weekStart: WeekStart) {
    match period
    case Month => Plain(Shifted(anchor, Month, 1))
    case Week => Plain(WeekStartOf(anchor, weekStart)) && Plain(anchor + 7)
    case Day => Plain(anchor)
  }

  predicate PreviousPlain(anchor: int, period: Period, weekStart: WeekStart) {
    match period
    case Month => Plain(Shifted(anchor, Month, -1))
    case Week => Plain(WeekStartOf(anchor, weekStart) - 7) && Plain(anchor)
    case Day => Plain(anchor)
  }

  /**
   The next period starts the day after this one ends, and the previous one ends
   the day before this one starts, each exactly when the years between are kept.
   */
  lemma PeriodsTile(anchor: int, period: Period, weekStart: WeekStart)
    ensures First(Shifted(anchor, period, 1), period, weekStart) == Last(anchor, period, weekStart) + 1
       <==> NextPlain(anchor, period, weekStart)
    ensures Last(Shifted(anchor, period, -1), period, weekStart) == First(anchor, period, weekStart) - 1
       <==> PreviousPlain(anchor, period, weekStart)
  {
    match period
    case Month => MonthsTile(anchor, weekStart);
    case Week => WeeksTile(anchor, weekStart);
    case Day =>
      hide AddDays, Plain;
      AddDaysExact(anchor, 1);
      AddDaysExact(anchor, -1);
  }

  lemma MonthsTile(anchor: int, weekStart: WeekStart)
    ensures First(Shifted(anchor, Month, 1), Month, weekStart) == Last(anchor, Month, weekStart) + 1
       <==> Plain(Shifted(anchor, Month, 1))
    ensures Last(Shifted(anchor, Month, -1), Month, weekStart) == First(anchor, Month, weekStart) - 1
       <==> Plain(Shifted(anchor, Month, -1))
  {
    hide First, Last, Shifted, Plain, MonthStart;
    var index, next, previous := KeptMonth(anchor), Shifted(anchor, Month, 1), Shifted(anchor, Month, -1);
    MonthIs(anchor, weekStart);
    MonthIs(next, weekStart);
    MonthIs(previous, weekStart);
    MonthShifted(anchor, 1);
    MonthShifted(anchor, -1);
    MonthStartsDiffer(KeptMonth(next), index + 1);
    MonthStartsDiffer(KeptMonth(previous) + 1, index);
  }

  lemma MonthIs(anchor: int, weekStart: WeekStart)
    ensures First(anchor, Month, weekStart) == MonthStart(KeptMonth(anchor))
    ensures Last(anchor, Month, weekStart) == MonthStart(KeptMonth(anchor) + 1) - 1
  {
    hide MonthStart, CivilOf, KeptMonth;
    KeptMonthIs(anchor);
    var c := CivilOf(anchor);
    assert 12 * FullYear(c.year) + c.month == KeptMonth(anchor) + 1;
  }

  lemma MonthShifted(anchor: int, direction: int)
    ensures MonthIndexOf(Shifted(anchor, Month, direction)) == KeptMonth(anchor) + direction
  {
    hide MonthStart, CivilOf, KeptMonth;
    KeptMonthIs(anchor);
    var c := CivilOf(anchor);
    var index := KeptMonth(anchor) + direction;
    assert 12 * FullYear(c.year) + (c.month - 1 + direction) == index;
    MonthStep(index);
    MonthOfDayUnique(MonthStart(index), index);
  }

  lemma WeeksTile(anchor: int, weekStart: WeekStart)
    ensures First(Shifted(anchor, Week, 1), Week, weekStart) == Last(anchor, Week, weekStart) + 1
       <==> Plain(WeekStartOf(anchor, weekStart)) && Plain(anchor + 7)
    ensures Last(Shifted(anchor, Week, -1), Week, weekStart) == First(anchor, Week, weekStart) - 1
       <==> Plain(WeekStartOf(anchor, weekStart) - 7) && Plain(anchor)
  {
    hide First, Last, Shifted, WeekStartOf, Moved;
    WeekPeriod(anchor, weekStart, 1);
    WeekPeriod(anchor, weekStart, -1);
    WeekStartNear(anchor, weekStart);
    if Plain(anchor) {
      MovedExact(anchor);
      WeekAfter(anchor, weekStart);
      WeekBefore(anchor, weekStart);
    } else {
      MovedWeeksMiss(anchor, weekStart, 7);
      MovedWeeksMiss(anchor, weekStart, -7);
    }
  }

  lemma WeekAfter(n: int, weekStart: WeekStart)
    requires Plain(n)
    ensures First(n + 7, Week, weekStart) == Last(n, Week, weekStart) + 1
       <==> Plain(WeekStartOf(n, weekStart)) && Plain(n + 7)
  {
    hide First, Last, Shifted, WeekStartOf, Moved;
    WeekPeriod(n, weekStart, 0);
    WeekPeriod(n + 7, weekStart, 0);
    WeekStartsStep(n, weekStart);
    WeekStartNear(n, weekStart);
    MovedExact(n);
    MovedExact(n + 7);
    MovedExact(WeekStartOf(n, weekStart));
  }

  lemma WeekBefore(n: int, weekStart: WeekStart)
    requires Plain(n)
    ensures Last(n - 7, Week, weekStart) == First(n, Week, weekStart) - 1 <==> Plain(WeekStartOf(n, weekStart) - 7)
  {
    hide First, Last, Shifted, WeekStartOf, Moved;
    WeekPeriod(n, weekStart, 0);
    WeekPeriod(n - 7, weekStart, 0);
    WeekStartsStep(n - 7, weekStart);
    WeekStartNear(n, weekStart);
    MovedExact(n);
    MovedExact(n - 7);
    MovedExact(First(n - 7, Week, weekStart));
  }

  /** A week moved to the 1900s starts on another weekday than the weeks before and after it. */
  lemma MovedWeeksMiss(anchor: int, weekStart: WeekStart, days: int)
    requires !Plain(anchor) && (days == 7 || days == -7)
    ensures var other, first := anchor + Moved(anchor) + days, WeekStartOf(anchor, weekStart) + Moved(anchor);
            && First(other, Week, weekStart) != first + days
            && Last(other, Week, weekStart) == First(other, Week, weekStart) + 6
            && Last(anchor, Week, weekStart) == first + 6
  {
    hide First, Last, Shifted, WeekStartOf, Moved;
    var other := anchor + Moved(anchor) + days;
    WeekPeriod(anchor, weekStart, 0);
    WeekPeriod(other, weekStart, 0);
    WeekStartNear(anchor, weekStart);
    WeekStartNear(other, weekStart);
    MovedExact(anchor);
    MovedExact(other);
    MovedExact(WeekStartOf(anchor, weekStart) + Moved(anchor));
    MovedExact(WeekStartOf(other, weekStart));
    Misaligned(anchor, other, weekStart, days);
  }

  lemma Misaligned(anchor: int, other: int, weekStart: WeekStart, days: int)
    requires !Plain(anchor) && (days == 7 || days == -7)
    ensures WeekStartOf(other, weekStart) != WeekStartOf(anchor, weekStart) + Moved(anchor) + days
  {
    hide WeekStartOf, Moved, Plain, Weekday, SinceWeekStart, StartsWeek;
    WeekStartIs(anchor, weekStart);
    WeekStartIs(other, weekStart);
    WeekOn(WeekStartOf(other, weekStart), weekStart);
    MovedExact(anchor);
    NotWholeWeeks(WeekStartOf(anchor, weekStart), Moved(anchor), WeekStartOf(other, weekStart) - days, weekStart);
  }

  lemma WeekPeriod(anchor: int, weekStart: WeekStart, direction: int)
    ensures First(anchor, Week, weekStart) == WeekStartOf(anchor, weekStart) + Moved(anchor)
    ensures Last(anchor, Week, weekStart) == First(anchor, Week, weekStart) + Moved(First(anchor, Week, weekStart)) + 6
    ensures Shifted(anchor, Week, direction) == anchor + Moved(anchor) + direction * 7
  {
    hide AddDays, WeekStartOf, SinceWeekStart;
    WeekStartIs(anchor, weekStart);
    AddDaysFromDay(anchor, -SinceWeekStart(anchor, weekStart));
    AddDaysFromDay(anchor, direction * 7);
    AddDaysFromDay(First(anchor, Week, weekStart), 6);
  }

  lemma WeekStartsStep(n: int, weekStart: WeekStart)
    ensures WeekStartOf(n + 7, weekStart) == WeekStartOf(n, weekStart) + 7
  {
  }
}
