/**
 The lanes of one location's day (legacy/web/location-layout.ts) and the cards
 drawn from them (legacy/web/location-schedule.tsx).  Instants are milliseconds,
 positions on the day are minutes.
 */
module LocationLayout {
  import opened StableSort
  import opened Stamps

  datatype Event = Event(id: string, location: string, start: Stamp, end: Stamp)

  /**
   The day shown: its first instant, the first instant of the next day, and the
   minute of the local clock, which may repeat or skip hours.
   */
  datatype LocalDay = LocalDay(start: int, end: int, clock: int -> int) {
    ghost predicate Valid() {
      start < end && forall t :: start <= t < end ==> 0 <= clock(t) < 1440
    }
  }

  datatype Interval = Interval(event: Event, start: int, height: real, lane: nat) {
    function End(): real {
      start as real + height
    }
  }

  // ---- Filter and clip

  predicate LaidOut(e: Event, location: string, day: LocalDay) {
    && e.location == location
    && e.start.At? && e.start.t < day.end
    && (match e.end
        case Blank => e.start.t >= day.start
        case Malformed => false
        case At(end) => end > day.start && end > e.start.t)
  }

  function Clip(e: Event, day: LocalDay): Interval
    requires e.start.At? && !e.end.Malformed?
  {
    var top := if e.start.t < day.start then 0 else day.clock(e.start.t);
    var bottom := if e.end.Blank? then top + 24
                  else if e.end.t >= day.end then 1440
                  else day.clock(e.end.t);
    var duration := if bottom > top then (bottom - top) as real
                    else (e.end.t - Max(e.start.t, day.start)) as real / 60000.0;
    Interval(e, top, MinReal((1440 - top) as real, MaxReal(24.0, duration)), 0)
  }

  function Max(a: int, b: int): int { if a >= b then a else b }
  function MaxReal(a: real, b: real): real { if a >= b then a else b }
  function MinReal(a: real, b: real): real { if a <= b then a else b }

  function Intervals(events: seq<Event>, location: string, day: LocalDay): seq<Interval> {
    if events == [] then []
    else
      (if LaidOut(events[0], location, day) then [Clip(events[0], day)] else [])
      + Intervals(events[1..], location, day)
  }

  /** Earlier first, then taller, then by id; `rank` stands for the collation of `localeCompare`. */
  function ByPosition(rank: string -> int): (Interval, Interval) -> bool {
    (a: Interval, b: Interval) =>
      a.start < b.start
      || (a.start == b.start
          && (a.height > b.height || (a.height == b.height && rank(a.event.id) <= rank(b.event.id))))
  }

  // ---- First fit

  /** `lanes.findIndex(end => end <= start)`, or the next new lane. */
  function FirstFree(ends: seq<real>, start: int): (lane: nat)
    ensures lane <= |ends|
    ensures forall l :: 0 <= l < lane ==> ends[l] > start as real
    ensures lane < |ends| ==> ends[lane] <= start as real
  {
    if ends == [] then 0
    else if ends[0] <= start as real then 0
    else 1 + FirstFree(ends[1..], start)
  }

  /** The end of each lane once `lane` has taken the interval. */
  function Taken(ends: seq<real>, lane: nat, end: real): seq<real>
    requires lane <= |ends|
  {
    if lane == |ends| then ends + [end] else ends[lane := end]
  }

  /** The ends of the lanes after all of `s` has been placed. */
  function LaneEnds(s: seq<Interval>): seq<real> {
    if s == [] then []
    else
      var before := LaneEnds(s[..|s| - 1]);
      var last := s[|s| - 1];
      Taken(before, FirstFree(before, last.start), last.End())
  }

  function LaneOf(s: seq<Interval>, i: nat): nat
    requires i < |s|
  {
    FirstFree(LaneEnds(s[..i]), s[i].start)
  }

  function WithLanes(s: seq<Interval>): seq<Interval> {
    seq(|s|, i requires 0 <= i < |s| => s[i].(lane := LaneOf(s, i)))
  }

  function Layout(events: seq<Event>, location: string, day: LocalDay, rank: string -> int): seq<Interval> {
    WithLanes(Sort(ByPosition(rank), Intervals(events, location, day)))
  }

  function LaneCount(events: seq<Event>, location: string, day: LocalDay, rank: string -> int): nat {
    |LaneEnds(Sort(ByPosition(rank), Intervals(events, location, day)))|
  }

  method FindFreeLane(lanes: seq<real>, start: int) returns (lane: nat)
    ensures lane == FirstFree(lanes, start)
  {
    lane := 0;
    while lane < |lanes| && lanes[lane] > start as real
      invariant lane <= |lanes|
      invariant FirstFree(lanes, start) == lane + FirstFree(lanes[lane..], start)
    {
      lane := lane + 1;
    }
  }

  lemma LaneEndsStep(s: seq<Interval>, i: nat)
    requires i < |s|
    ensures LaneOf(s, i) == FirstFree(LaneEnds(s[..i]), s[i].start) <= |LaneEnds(s[..i])|
    ensures LaneEnds(s[..i + 1]) == Taken(LaneEnds(s[..i]), LaneOf(s, i), s[i].End())
  {
    assert s[..i + 1][..i] == s[..i];
  }

  lemma NoLaneEnds(s: seq<Interval>)
    ensures LaneEnds(s[..0]) == []
  {
  }

  /** The loop that writes each interval's lane in place and keeps the lanes' ends. */
  method AssignLanes(intervals: array<Interval>) returns (laneCount: nat)
    modifies intervals
    ensures intervals[..] == WithLanes(old(intervals[..]))
    ensures laneCount == |LaneEnds(old(intervals[..]))|
  {
    hide LaneEnds, FirstFree, LaneOf;
    ghost var was := intervals[..];
    var lanes: seq<real> := [];
    NoLaneEnds(was);
    for i := 0 to intervals.Length
      invariant lanes == LaneEnds(was[..i])
      invariant forall k :: 0 <= k < i ==> intervals[k] == was[k].(lane := LaneOf(was, k))
      invariant forall k :: i <= k < intervals.Length ==> intervals[k] == was[k]
    {
      LaneEndsStep(was, i);
      var lane := FindFreeLane(lanes, intervals[i].start);
      intervals[i] := intervals[i].(lane := lane);
      var end := intervals[i].start as real + intervals[i].height;
      lanes := if lane == |lanes| then lanes + [end] else lanes[lane := end];
    }
    assert was[..intervals.Length] == was;
    laneCount := |lanes|;
  }

  method LayoutLocationDay(events: seq<Event>, location: string, day: LocalDay, rank: string -> int)
    returns (intervals: array<Interval>, laneCount: nat)
    ensures fresh(intervals)
    ensures intervals[..] == Layout(events, location, day, rank)
    ensures laneCount == LaneCount(events, location, day, rank)
  {
    var sorted := Sort(ByPosition(rank), Intervals(events, location, day));
    intervals := new Interval[|sorted|](i requires 0 <= i < |sorted| => sorted[i]);
    assert intervals[..] == sorted;
    laneCount := AssignLanes(intervals);
  }

  // ---- What is laid out, and where

  /**
   The event takes place at the location and on the day: it has a start and either
   an end and an instant in common with the day, or no end and its start on the day.
   */
  ghost predicate TakesPlace(e: Event, location: string, day: LocalDay) {
    && e.location == location && e.start.At?
    && match e.end
       case At(end) => exists t :: Within(e.start.t, t, end) && Within(day.start, t, day.end)
       case Blank => Within(day.start, e.start.t, day.end)
       case Malformed => false
  }

  lemma LaidOutExact(e: Event, location: string, day: LocalDay)
    requires day.Valid()
    ensures LaidOut(e, location, day) <==> TakesPlace(e, location, day)
  {
    if LaidOut(e, location, day) && e.end.At? {
      var t := Max(e.start.t, day.start);
      assert Within(e.start.t, t, e.end.t) && Within(day.start, t, day.end);
    }
  }

  ghost predicate Within(from: int, t: int, to: int) {
    from <= t < to
  }

  /** Clipped intervals have a positive height and end within the day; short ones get 24 minutes or the rest of the day. */
  lemma ClipBounds(e: Event, location: string, day: LocalDay)
    requires day.Valid() && LaidOut(e, location, day)
    ensures var i := Clip(e, day);
            && 0 <= i.start < 1440 && i.height > 0.0 && i.End() <= 1440.0
            && (i.height >= 24.0 || i.End() == 1440.0)
  {
  }

  /**
   Where a card starts and ends, whatever the clock does.  A card starts at the
   event's clock time, or at 0 if the event started before the day.  It ends with
   the day if the event does or goes on, at the event's clock time if that is
   later than its start, and otherwise after the minutes that really pass; 24
   minutes are the least, and what an event without an end gets.
   */
  lemma ClipExact(e: Event, location: string, day: LocalDay)
    requires day.Valid() && LaidOut(e, location, day)
    ensures var i := Clip(e, day);
            && i.event == e && i.lane == 0
            && i.start == (if e.start.t < day.start then 0 else day.clock(e.start.t))
            && (e.end.Blank? ==> i.End() == MinReal(1440.0, i.start as real + 24.0))
            && (e.end.At? && e.end.t >= day.end ==> i.End() == 1440.0)
            && (e.end.At? && e.end.t < day.end && day.clock(e.end.t) > i.start
                ==> i.End() == MinReal(1440.0, MaxReal(i.start as real + 24.0, day.clock(e.end.t) as real)))
            && (e.end.At? && e.end.t < day.end && day.clock(e.end.t) <= i.start
                ==> i.End() == MinReal(1440.0, i.start as real
                       + MaxReal(24.0, (e.end.t - Max(e.start.t, day.start)) as real / 60000.0)))
  {
  }

  /**
   On a day whose clock runs evenly, a card spans exactly the clipped event, or
   24 minutes of the day if that is less.
   */
  lemma ClipEven(e: Event, location: string, day: LocalDay)
    requires day.end == day.start + 1440 * 60000
    requires forall t :: day.start <= t < day.end ==> day.clock(t) == (t - day.start) / 60000
    requires LaidOut(e, location, day) && e.end.At?
    ensures var i := Clip(e, day);
            var from := (Max(e.start.t, day.start) - day.start) / 60000;
            var to := if e.end.t >= day.end then 1440 else (e.end.t - day.start) / 60000;
            i.start == from && i.End() == MinReal(1440.0, MaxReal(from as real + 24.0, to as real))
  {
    hide Clip;
    ClipExact(e, location, day);
  }

  lemma {:induction false} IntervalsOf(events: seq<Event>, location: string, day: LocalDay, i: Interval)
    ensures i in Intervals(events, location, day)
       <==> exists e :: e in events && LaidOut(e, location, day) && i == Clip(e, day)
  {
    if events != [] {
      IntervalsOf(events[1..], location, day, i);
      assert events == [events[0]] + events[1..];
    }
  }

  // ---- No two intervals of a lane overlap

  ghost predicate Apart(a: Interval, b: Interval) {
    a.End() <= b.start as real || b.End() <= a.start as real
  }

  ghost predicate InOrder(s: seq<Interval>) {
    && (forall i, j :: 0 <= i < j < |s| ==> s[i].start <= s[j].start)
    && (forall i :: 0 <= i < |s| ==> s[i].height > 0.0)
  }

  /** Lane numbers for a sequence of intervals, below `k`, that keep each lane free of overlap. */
  ghost predicate Valid(s: seq<Interval>, lanes: seq<nat>, k: nat) {
    && |lanes| == |s|
    && (forall i :: 0 <= i < |s| ==> lanes[i] < k)
    && (forall i, j :: 0 <= i < j < |s| && lanes[i] == lanes[j] ==> Apart(s[i], s[j]))
  }

  function Lanes(s: seq<Interval>): (lanes: seq<nat>)
    ensures |lanes| == |s|
  {
    if s == [] then []
    else Lanes(s[..|s| - 1]) + [FirstFree(LaneEnds(s[..|s| - 1]), s[|s| - 1].start)]
  }

  lemma {:induction false} LanesAre(s: seq<Interval>, i: nat)
    requires i < |s|
    ensures Lanes(s)[i] == LaneOf(s, i)
  {
    var n := |s| - 1;
    if i < n {
      LanesAre(s[..n], i);
      assert s[..n][..i] == s[..i];
    }
  }

  /** What the loop keeps: every lane's end is the end of one of its intervals and bounds all of them. */
  ghost predicate Loop(s: seq<Interval>, lanes: seq<nat>, ends: seq<real>) {
    && |lanes| == |s|
    && (forall i :: 0 <= i < |s| ==> lanes[i] < |ends| && s[i].End() <= ends[lanes[i]])
    && (forall l :: 0 <= l < |ends| ==> HasLast(s, lanes, l, ends[l]))
  }

  ghost predicate HasLast(s: seq<Interval>, lanes: seq<nat>, l: nat, end: real)
    requires |lanes| == |s|
  {
    exists p :: 0 <= p < |s| && lanes[p] == l && s[p].End() == end
  }

  lemma {:induction false} LoopKept(s: seq<Interval>)
    requires InOrder(s)
    ensures Loop(s, Lanes(s), LaneEnds(s))
    ensures Valid(s, Lanes(s), |LaneEnds(s)|)
  {
    if s != [] {
      hide Loop, Valid, FirstFree, Taken;
      var n := |s| - 1;
      var before, next := s[..n], s[n];
      assert s == before + [next];
      LoopKept(before);
      LoopStep(before, Lanes(before), LaneEnds(before), next);
      LaneEndsStep(s, n);
      assert s[..n + 1] == s;
    }
  }

  /** One pass of the loop. */
  lemma LoopStep(s: seq<Interval>, lanes: seq<nat>, ends: seq<real>, next: Interval)
    requires InOrder(s + [next]) && Loop(s, lanes, ends) && Valid(s, lanes, |ends|)
    ensures var lane := FirstFree(ends, next.start);
            var ends' := Taken(ends, lane, next.End());
            Loop(s + [next], lanes + [lane], ends') && Valid(s + [next], lanes + [lane], |ends'|)
  {
    var lane := FirstFree(ends, next.start);
    hide FirstFree, InOrder;
    var ends' := Taken(ends, lane, next.End());
    assert next.height > 0.0 by { LastPositive(s, next); }
    assert (s + [next])[|s|] == next && (lanes + [lane])[|s|] == lane;
    forall i | 0 <= i < |s|
      ensures lanes[i] < |ends'| && s[i].End() <= ends'[lanes[i]]
      ensures lanes[i] == lane ==> s[i].End() <= next.start as real
    {
    }
    forall l | 0 <= l < |ends'|
      ensures HasLast(s + [next], lanes + [lane], l, ends'[l])
    {
      LastKept(s, lanes, ends, next, lane, l);
    }
    hide HasLast;
  }

  lemma LastPositive(s: seq<Interval>, next: Interval)
    requires InOrder(s + [next])
    ensures next.height > 0.0
  {
    assert (s + [next])[|s|] == next;
  }

  lemma LastKept(s: seq<Interval>, lanes: seq<nat>, ends: seq<real>, next: Interval, lane: nat, l: nat)
    requires |lanes| == |s| && lane <= |ends| && l < |Taken(ends, lane, next.End())|
    requires l < |ends| ==> HasLast(s, lanes, l, ends[l])
    ensures HasLast(s + [next], lanes + [lane], l, Taken(ends, lane, next.End())[l])
  {
    var s', lanes' := s + [next], lanes + [lane];
    if l == lane {
      assert s'[|s|] == next && lanes'[|s|] == l;
    } else {
      var p :| 0 <= p < |s| && lanes[p] == l && s[p].End() == ends[l];
      assert s'[p] == s[p] && lanes'[p] == l;
    }
  }

  // ---- The lane count is the greatest number of intervals at one instant

  ghost function Covering(s: seq<Interval>, t: real): set<nat> {
    set i | 0 <= i < |s| && s[i].start as real <= t < s[i].End()
  }

  ghost function Depth(s: seq<Interval>, t: real): nat {
    |Covering(s, t)|
  }

  /** Indexes with distinct lanes below `k` are at most `k` many. */
  lemma {:induction false} AtMostLanes(c: set<nat>, lanes: seq<nat>, k: nat)
    requires forall i :: i in c ==> i < |lanes| && lanes[i] < k
    requires forall i, j :: i in c && j in c && lanes[i] == lanes[j] ==> i == j
    ensures |c| <= k
  {
    if c != {} {
      var i :| i in c;
      if j :| j in c && lanes[j] == k - 1 {
        AtMostLanes(c - {j}, lanes, k - 1);
      } else {
        AtMostLanes(c, lanes, k - 1);
      }
    }
  }

  /** Indexes that meet every lane below `k` are at least `k` many. */
  lemma {:induction false} AtLeastLanes(c: set<nat>, lanes: seq<nat>, k: nat)
    requires forall l: nat :: l < k ==> Meets(c, lanes, l)
    ensures |c| >= k
  {
    if k > 0 {
      assert Meets(c, lanes, k - 1);
      var i :| i in c && i < |lanes| && lanes[i] == k - 1;
      forall l: nat | l < k - 1
        ensures Meets(c - {i}, lanes, l)
      {
        assert Meets(c, lanes, l);
        var j :| j in c && j < |lanes| && lanes[j] == l;
        assert j in c - {i};
      }
      AtLeastLanes(c - {i}, lanes, k - 1);
    }
  }

  ghost predicate Meets(c: set<nat>, lanes: seq<nat>, l: nat) {
    exists i :: i in c && i < |lanes| && lanes[i] == l
  }

  /** No instant is covered by more intervals than a valid assignment has lanes. */
  lemma DepthBound(s: seq<Interval>, lanes: seq<nat>, k: nat, t: real)
    requires InOrder(s) && Valid(s, lanes, k)
    ensures Depth(s, t) <= k
  {
    forall i, j | i in Covering(s, t) && j in Covering(s, t) && lanes[i] == lanes[j]
      ensures i == j
    {
      assert !Apart(s[i], s[j]);
    }
    AtMostLanes(Covering(s, t), lanes, k);
  }

  /** When the last lane was opened, an interval of every lane was running. */
  lemma {:induction false} PeakExists(s: seq<Interval>) returns (t: real)
    requires InOrder(s)
    ensures Depth(s, t) >= |LaneEnds(s)|
  {
    if s == [] {
      t := 0.0;
    } else {
      hide Depth, Loop, Valid, FirstFree, Lanes;
      var n := |s| - 1;
      var before, ends, next := s[..n], LaneEnds(s[..n]), s[n];
      assert s == before + [next];
      LaneEndsStep(s, n);
      assert s[..n + 1] == s;
      if FirstFree(ends, next.start) == |ends| {
        t := next.start as real;
        LoopKept(before);
        NewLanePeak(before, Lanes(before), ends, next);
      } else {
        t := PeakExists(before);
        MoreIsDeeper(before, next, t);
      }
    }
  }

  lemma MoreIsDeeper(s: seq<Interval>, next: Interval, t: real)
    ensures Depth(s + [next], t) >= Depth(s, t)
  {
    var a, b := Covering(s, t), Covering(s + [next], t);
    assert a <= b;
    assert b == a + (b - a);
  }

  lemma NewLanePeak(s: seq<Interval>, lanes: seq<nat>, ends: seq<real>, next: Interval)
    requires InOrder(s + [next]) && Loop(s, lanes, ends)
    requires FirstFree(ends, next.start) == |ends|
    ensures Depth(s + [next], next.start as real) >= |ends| + 1
  {
    var s', lanes', t := s + [next], lanes + [|ends|], next.start as real;
    assert s'[|s|] == next;
    forall l: nat | l < |ends| + 1
      ensures Meets(Covering(s', t), lanes', l)
    {
      if l == |ends| {
        assert |s| in Covering(s', t) && lanes'[|s|] == l;
      } else {
        assert HasLast(s, lanes, l, ends[l]);
        var p: nat :| p < |s| && lanes[p] == l && s[p].End() == ends[l];
        assert s'[p] == s[p] && lanes'[p] == l;
        assert p in Covering(s', t);
      }
    }
    AtLeastLanes(Covering(s', t), lanes', |ends| + 1);
  }

  /**
   First fit is optimal: it keeps every lane free of overlap, its lane count is
   the greatest number of intervals sharing an instant, and no assignment that
   keeps lanes free of overlap uses fewer lanes.
   */
  lemma LanesOptimal(s: seq<Interval>)
    requires InOrder(s)
    ensures Valid(s, Lanes(s), |LaneEnds(s)|)
    ensures forall t :: Depth(s, t) <= |LaneEnds(s)|
    ensures exists t :: Depth(s, t) == |LaneEnds(s)|
    ensures forall lanes, k :: Valid(s, lanes, k) ==> |LaneEnds(s)| <= k
  {
    LoopKept(s);
    var peak := PeakExists(s);
    forall t
      ensures Depth(s, t) <= |LaneEnds(s)|
    {
      DepthBound(s, Lanes(s), |LaneEnds(s)|, t);
    }
    forall lanes, k | Valid(s, lanes, k)
      ensures |LaneEnds(s)| <= k
    {
      DepthBound(s, lanes, k, peak);
    }
  }

  // ---- From the events to the cards

  lemma ByPositionTotal(rank: string -> int)
    ensures TotalPreorder(ByPosition(rank))
  {
  }

  /** The sorted intervals satisfy what the lane loop relies on. */
  lemma SortedInOrder(events: seq<Event>, location: string, day: LocalDay, rank: string -> int)
    requires day.Valid()
    ensures var s := Sort(ByPosition(rank), Intervals(events, location, day));
            && InOrder(s)
            && (forall i :: 0 <= i < |s| ==> 0 <= s[i].start < 1440 && s[i].height > 0.0 && s[i].End() <= 1440.0)
  {
    var le, clipped := ByPosition(rank), Intervals(events, location, day);
    var s := Sort(le, clipped);
    ByPositionTotal(rank);
    SortSorted(le, clipped);
    SortContents(le, clipped);
    forall i | 0 <= i < |s|
      ensures 0 <= s[i].start < 1440 && s[i].height > 0.0 && s[i].End() <= 1440.0
    {
      assert s[i] in multiset(s);
      IntervalsOf(events, location, day, s[i]);
      var e :| e in events && LaidOut(e, location, day) && s[i] == Clip(e, day);
      ClipBounds(e, location, day);
    }
  }

  /** Intervals come by start, of one start the taller first, and of one height by id. */
  lemma LayoutOrder(events: seq<Event>, location: string, day: LocalDay, rank: string -> int, i: nat, j: nat)
    requires i < j < |Layout(events, location, day, rank)|
    ensures var a, b := Layout(events, location, day, rank)[i], Layout(events, location, day, rank)[j];
            && a.start <= b.start
            && (a.start == b.start ==> a.height >= b.height)
            && (a.start == b.start && a.height == b.height ==> rank(a.event.id) <= rank(b.event.id))
  {
    ByPositionTotal(rank);
    SortSorted(ByPosition(rank), Intervals(events, location, day));
    var s := Sort(ByPosition(rank), Intervals(events, location, day));
    assert ByPosition(rank)(s[i], s[j]);
  }

  /**
   The layout of a day, from the events: intervals sharing a lane do not overlap,
   the lane count is the greatest number of intervals at one instant, and any
   other assignment of the same intervals without overlap has as many lanes.
   */
  lemma LayoutOptimal(events: seq<Event>, location: string, day: LocalDay, rank: string -> int)
    requires day.Valid()
    ensures var laid, n := Layout(events, location, day, rank), LaneCount(events, location, day, rank);
            && (forall i :: 0 <= i < |laid| ==> laid[i].lane < n)
            && (forall i, j :: 0 <= i < j < |laid| && laid[i].lane == laid[j].lane ==> Apart(laid[i], laid[j]))
            && (forall t :: Depth(laid, t) <= n)
            && (exists t :: Depth(laid, t) == n)
            && (forall lanes, k :: Valid(laid, lanes, k) ==> n <= k)
  {
    SortedInOrder(events, location, day, rank);
    WithLanesOptimal(Sort(ByPosition(rank), Intervals(events, location, day)));
  }

  lemma WithLanesOptimal(s: seq<Interval>)
    requires InOrder(s)
    ensures var laid, n := WithLanes(s), |LaneEnds(s)|;
            && (forall i :: 0 <= i < |laid| ==> laid[i].lane < n)
            && (forall i, j :: 0 <= i < j < |laid| && laid[i].lane == laid[j].lane ==> Apart(laid[i], laid[j]))
            && (forall t :: Depth(laid, t) <= n)
            && (exists t :: Depth(laid, t) == n)
            && (forall lanes, k :: Valid(laid, lanes, k) ==> n <= k)
  {
    hide LaneEnds, LaneOf, InOrder, Valid, Depth;
    LanesOptimal(s);
    var laid := WithLanes(s);
    forall i | 0 <= i < |s|
      ensures laid[i].lane == Lanes(s)[i]
    {
      LanesAre(s, i);
    }
    hide Lanes;
    assert SamePlaces(s, laid);
    forall t
      ensures Depth(laid, t) == Depth(s, t)
    {
      SameDepth(s, laid, t);
    }
    var peak :| Depth(s, peak) == |LaneEnds(s)|;
    assert Depth(laid, peak) == |LaneEnds(s)|;
    forall lanes, k | Valid(laid, lanes, k)
      ensures |LaneEnds(s)| <= k
    {
      SameValid(laid, s, lanes, k);
    }
    SameValid(s, laid, Lanes(s), |LaneEnds(s)|);
    ValidLanes(laid, Lanes(s), |LaneEnds(s)|);
  }

  /** Intervals that differ in their lanes at most. */
  ghost predicate SamePlaces(s: seq<Interval>, r: seq<Interval>) {
    |s| == |r| && forall i :: 0 <= i < |s| ==> s[i].start == r[i].start && s[i].height == r[i].height
  }

  lemma SameDepth(s: seq<Interval>, r: seq<Interval>, t: real)
    requires SamePlaces(s, r)
    ensures Depth(s, t) == Depth(r, t)
  {
    assert Covering(s, t) == Covering(r, t);
  }

  lemma SameValid(s: seq<Interval>, r: seq<Interval>, lanes: seq<nat>, k: nat)
    requires SamePlaces(s, r) && Valid(s, lanes, k)
    ensures Valid(r, lanes, k)
  {
  }

  lemma ValidLanes(laid: seq<Interval>, lanes: seq<nat>, k: nat)
    requires Valid(laid, lanes, k) && forall i :: 0 <= i < |laid| ==> laid[i].lane == lanes[i]
    ensures forall i :: 0 <= i < |laid| ==> laid[i].lane < k
    ensures forall i, j :: 0 <= i < j < |laid| && laid[i].lane == laid[j].lane ==> Apart(laid[i], laid[j])
  {
  }

  function EventsOf(s: seq<Interval>): (events: seq<Event>)
    ensures |events| == |s| && forall i :: 0 <= i < |s| ==> events[i] == s[i].event
  {
    if s == [] then [] else [s[0].event] + EventsOf(s[1..])
  }

  /**
   Every event of the day at the location has its interval in the layout as often
   as it is given, no other event has one, and each is its event clipped to the day.
   */
  lemma LayoutContents(events: seq<Event>, location: string, day: LocalDay, rank: string -> int, e: Event)
    requires day.Valid()
    ensures var laid := Layout(events, location, day, rank);
            && multiset(EventsOf(laid))[e] == (if TakesPlace(e, location, day) then multiset(events)[e] else 0)
            && forall i :: 0 <= i < |laid| ==>
                 LaidOut(laid[i].event, location, day) && laid[i].(lane := 0) == Clip(laid[i].event, day)
  {
    LaidOutExact(e, location, day);
    var le, clipped := ByPosition(rank), Intervals(events, location, day);
    var s, laid := Sort(le, clipped), Layout(events, location, day, rank);
    assert EventsOf(laid) == EventsOf(s);
    SortEvents(le, clipped);
    hide TakesPlace;
    EventCount(events, location, day, e);
    SortContents(le, clipped);
    forall i | 0 <= i < |laid|
      ensures LaidOut(laid[i].event, location, day) && laid[i].(lane := 0) == Clip(laid[i].event, day)
    {
      assert s[i] in multiset(s);
      IntervalsOf(events, location, day, s[i]);
    }
  }

  lemma {:induction false} EventCount(events: seq<Event>, location: string, day: LocalDay, e: Event)
    ensures multiset(EventsOf(Intervals(events, location, day)))[e]
         == if LaidOut(e, location, day) then multiset(events)[e] else 0
  {
    if events != [] {
      EventCount(events[1..], location, day, e);
      var rest := Intervals(events[1..], location, day);
      assert events == [events[0]] + events[1..];
      assert LaidOut(events[0], location, day) ==>
        EventsOf([Clip(events[0], day)] + rest) == [events[0]] + EventsOf(rest);
      assert [] + rest == rest;
    }
  }

  lemma {:induction false} SortEvents(le: (Interval, Interval) -> bool, s: seq<Interval>)
    ensures multiset(EventsOf(Sort(le, s))) == multiset(EventsOf(s))
  {
    if s != [] {
      SortEvents(le, s[1..]);
      InsertEvents(le, s[0], Sort(le, s[1..]));
    }
  }

  lemma {:induction false} InsertEvents(le: (Interval, Interval) -> bool, x: Interval, s: seq<Interval>)
    ensures multiset(EventsOf(Insert(le, x, s))) == multiset{x.event} + multiset(EventsOf(s))
  {
    if s == [] || le(x, s[0]) {
      assert EventsOf([x] + s) == [x.event] + EventsOf(s);
    } else {
      InsertEvents(le, x, s[1..]);
      assert EventsOf([s[0]] + Insert(le, x, s[1..])) == [s[0].event] + EventsOf(Insert(le, x, s[1..]));
    }
  }

  /**
   The lane of each card: the first whose earlier cards have all ended when it
   starts.  Every lane before it holds an earlier card that has not.
   */
  lemma FirstFitExact(events: seq<Event>, location: string, day: LocalDay, rank: string -> int, i: nat, lane: nat)
    requires day.Valid() && i < |Layout(events, location, day, rank)|
    ensures var laid := Layout(events, location, day, rank);
            && (lane == laid[i].lane ==> forall j :: 0 <= j < i && laid[j].lane == lane ==> laid[j].End() <= laid[i].start as real)
            && (lane < laid[i].lane ==> exists j :: 0 <= j < i && laid[j].lane == lane && laid[j].End() > laid[i].start as real)
  {
    var s := Sort(ByPosition(rank), Intervals(events, location, day));
    SortedInOrder(events, location, day, rank);
    hide Sort, Intervals, InOrder, LaneOf;
    FirstFit(s, i, lane);
    var laid := Layout(events, location, day, rank);
    if lane < laid[i].lane {
      var j :| 0 <= j < i && LaneOf(s, j) == lane && s[j].End() > s[i].start as real;
      assert laid[j].lane == lane && laid[j].End() > laid[i].start as real;
    }
  }

  lemma FirstFit(s: seq<Interval>, i: nat, lane: nat)
    requires InOrder(s) && i < |s|
    ensures lane == LaneOf(s, i) ==> forall j :: 0 <= j < i && LaneOf(s, j) == lane ==> s[j].End() <= s[i].start as real
    ensures lane < LaneOf(s, i) ==> exists j :: 0 <= j < i && LaneOf(s, j) == lane && s[j].End() > s[i].start as real
  {
    var before, lanes, ends := s[..i], Lanes(s[..i]), LaneEnds(s[..i]);
    LoopKept(before);
    LaneEndsStep(s, i);
    PrefixLanes(s, i);
    hide InOrder, Valid, LaneEnds, LaneOf, Lanes;
    if lane < LaneOf(s, i) {
      assert HasLast(before, lanes, lane, ends[lane]);
      var j :| 0 <= j < |before| && lanes[j] == lane && before[j].End() == ends[lane];
      assert LaneOf(s, j) == lane && s[j].End() > s[i].start as real;
    }
  }

  lemma PrefixLanes(s: seq<Interval>, i: nat)
    requires i < |s|
    ensures forall j :: 0 <= j < i ==> Lanes(s[..i])[j] == LaneOf(s, j)
  {
    forall j | 0 <= j < i
      ensures Lanes(s[..i])[j] == LaneOf(s, j)
    {
      LanesAre(s[..i], j);
      assert s[..i][..j] == s[..j];
    }
  }

  /** Percentages across and minutes down, as the column draws them. */
  datatype Card = Card(left: real, width: real, top: real, height: real)

  function CardOf(i: Interval, laneCount: nat): Card
    requires laneCount > 0
  {
    Card(LeftPercent(i.lane, laneCount), WidthPercent(laneCount), i.start as real, i.height)
  }

  function LeftPercent(lane: nat, laneCount: nat): real
    requires laneCount > 0
  {
    lane as real * 100.0 / laneCount as real
  }

  function WidthPercent(laneCount: nat): real
    requires laneCount > 0
  {
    100.0 / laneCount as real
  }

  /**
   How a column is drawn: time runs down, from a card's start to its end, and the
   lanes lie side by side, the first at the left edge and the last at the right.
   */
  lemma CardExact(i: Interval, j: Interval, laneCount: nat)
    requires i.lane < laneCount
    ensures var c, d := CardOf(i, laneCount), CardOf(j, laneCount);
            && c.top == i.start as real && c.top + c.height == i.End()
            && (i.lane == 0 ==> c.left == 0.0)
            && (i.lane + 1 == j.lane ==> c.left + c.width == d.left)
            && (i.lane + 1 == laneCount ==> c.left + c.width == 100.0)
  {
    var w, n := 100.0 / laneCount as real, laneCount as real;
    assert w * n == 100.0;
    assert LeftPercent(i.lane, laneCount) == i.lane as real * w && LeftPercent(j.lane, laneCount) == j.lane as real * w;
    assert (i.lane as real + 1.0) * w == i.lane as real * w + w;
  }

  ghost predicate Disjoint(a: Card, b: Card) {
    || a.left + a.width <= b.left || b.left + b.width <= a.left
    || a.top + a.height <= b.top || b.top + b.height <= a.top
  }

  ghost predicate CardInColumn(c: Card) {
    c.left >= 0.0 && c.left + c.width <= 100.0 && c.width > 0.0 && c.top >= 0.0 && c.height > 0.0 && c.top + c.height <= 1440.0
  }

  /** Every card lies within its column and the day and has a positive height, whatever the clock does. */
  lemma CardsFit(events: seq<Event>, location: string, day: LocalDay, rank: string -> int, i: nat)
    requires day.Valid() && i < |Layout(events, location, day, rank)|
    ensures LaneCount(events, location, day, rank) > 0
    ensures CardInColumn(CardOf(Layout(events, location, day, rank)[i], LaneCount(events, location, day, rank)))
  {
    var s := Sort(ByPosition(rank), Intervals(events, location, day));
    SortedInOrder(events, location, day, rank);
    LoopKept(s);
    LanesAre(s, i);
    hide LeftPercent, WidthPercent, LaneOf, LaneEnds, Intervals, Sort;
    LaneStrip(LaneOf(s, i), |LaneEnds(s)|);
  }

  /** No two cards of a column overlap. */
  lemma CardsNeverCollide(events: seq<Event>, location: string, day: LocalDay, rank: string -> int, i: nat, j: nat)
    requires day.Valid() && i < j < |Layout(events, location, day, rank)|
    requires LaneCount(events, location, day, rank) > 0
    ensures var laid, n := Layout(events, location, day, rank), LaneCount(events, location, day, rank);
            Disjoint(CardOf(laid[i], n), CardOf(laid[j], n))
  {
    var s := Sort(ByPosition(rank), Intervals(events, location, day));
    SortedInOrder(events, location, day, rank);
    LanesApart(s, i, j);
    var a, b := LaneOf(s, i), LaneOf(s, j);
    hide LeftPercent, WidthPercent, LaneOf, LaneEnds, Intervals, Sort;
    if a < b {
      StripsInOrder(a, b, |LaneEnds(s)|);
    } else if b < a {
      StripsInOrder(b, a, |LaneEnds(s)|);
    }
  }

  lemma LanesApart(s: seq<Interval>, i: nat, j: nat)
    requires InOrder(s) && i < j < |s|
    ensures LaneOf(s, i) < |LaneEnds(s)| && LaneOf(s, j) < |LaneEnds(s)|
    ensures LaneOf(s, i) == LaneOf(s, j) ==> Apart(s[i], s[j])
  {
    LoopKept(s);
    LanesAre(s, i);
    LanesAre(s, j);
  }

  lemma LaneStrip(lane: nat, n: nat)
    requires lane < n
    ensures WidthPercent(n) > 0.0 && LeftPercent(lane, n) >= 0.0 && LeftPercent(lane, n) + WidthPercent(n) <= 100.0
  {
    var w, k := 100.0 / n as real, n as real;
    assert w * k == 100.0;
    assert LeftPercent(lane, n) == lane as real * w;
    assert (lane as real + 1.0) * w <= k * w;
  }

  lemma StripsInOrder(a: nat, b: nat, n: nat)
    requires a < b < n
    ensures LeftPercent(a, n) + WidthPercent(n) <= LeftPercent(b, n)
  {
    var w := 100.0 / n as real;
    assert LeftPercent(a, n) == a as real * w && LeftPercent(b, n) == b as real * w;
    assert (a as real + 1.0) * w <= b as real * w;
  }

  // ---- The order of the events does not matter

  lemma {:induction false} IntervalsConcat(a: seq<Event>, b: seq<Event>, location: string, day: LocalDay)
    ensures Intervals(a + b, location, day) == Intervals(a, location, day) + Intervals(b, location, day)
  {
    hide LaidOut, Clip;
    if a == [] {
      assert a + b == b;
    } else {
      IntervalsConcat(a[1..], b, location, day);
      assert (a + b)[1..] == a[1..] + b;
    }
  }

  lemma {:induction false} IntervalsPermuted(a: seq<Event>, b: seq<Event>, location: string, day: LocalDay)
    requires multiset(a) == multiset(b)
    ensures multiset(Intervals(a, location, day)) == multiset(Intervals(b, location, day))
  {
    if a == [] {
      assert |multiset(b)| == |b|;
    } else {
      hide Intervals;
      var left, right := Without(a, b);
      IntervalsPermuted(a[1..], left + right, location, day);
      IntervalsMoved(a[0], left, right, location, day);
      assert a == [a[0]] + a[1..];
      IntervalsConcat([a[0]], a[1..], location, day);
    }
  }

  /** The rest of a permutation around the other's first element. */
  lemma Without(a: seq<Event>, b: seq<Event>) returns (left: seq<Event>, right: seq<Event>)
    requires a != [] && multiset(a) == multiset(b)
    ensures b == left + ([a[0]] + right) && multiset(a[1..]) == multiset(left + right)
  {
    assert a[0] in multiset(b);
    var k :| 0 <= k < |b| && b[k] == a[0];
    left, right := b[..k], b[k + 1..];
    assert b == left + ([a[0]] + right);
    TailContents(a);
  }

  lemma IntervalsMoved(e: Event, left: seq<Event>, right: seq<Event>, location: string, day: LocalDay)
    ensures multiset(Intervals(left + ([e] + right), location, day))
         == multiset(Intervals([e], location, day)) + multiset(Intervals(left + right, location, day))
  {
    hide Intervals;
    IntervalsConcat(left, [e] + right, location, day);
    IntervalsConcat([e], right, location, day);
    IntervalsConcat(left, right, location, day);
  }

  ghost predicate DistinctIds(events: seq<Event>, rank: string -> int) {
    forall d, e :: d in events && e in events && rank(d.id) == rank(e.id) ==> d == e
  }

  /**
   When no two different events share an id and the collation tells ids apart,
   any order of the events gives the same intervals, heights and lanes.
   */
  lemma LayoutDeterministic(a: seq<Event>, b: seq<Event>, location: string, day: LocalDay, rank: string -> int)
    requires multiset(a) == multiset(b) && DistinctIds(a, rank)
    ensures Layout(a, location, day, rank) == Layout(b, location, day, rank)
    ensures LaneCount(a, location, day, rank) == LaneCount(b, location, day, rank)
  {
    var le := ByPosition(rank);
    var p, q := Intervals(a, location, day), Intervals(b, location, day);
    IntervalsPermuted(a, b, location, day);
    ByPositionTotal(rank);
    SortSorted(le, p);
    SortSorted(le, q);
    SortContents(le, p);
    SortContents(le, q);
    var r := Sort(le, p);
    forall x, y | x in r && y in r && le(x, y) && le(y, x)
      ensures x == y
    {
      assert x in multiset(r) && y in multiset(r);
      IntervalsOf(a, location, day, x);
      IntervalsOf(a, location, day, y);
    }
    SortedPermutation(le, r, Sort(le, q));
  }
}
