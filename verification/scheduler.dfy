/**
 * The publish-time calculator of the queue manager
 * (`Manager::calculate_next_publish_time`).
 *
 * Times are integer seconds. A calendar day is DAY seconds long and starts at
 * `DayStart(t)`; the daily window is given by its start and end as seconds of
 * the day, and `WindowStart`/`WindowEnd` place it on the day of `now` (the
 * absolute timestamps the source obtains from `strtotime('12 am')` etc.).
 * The window is cut into `postsPerDay + 1` equal intervals, so the slots of a
 * day are `start + j * interval` for `1 <= j <= postsPerDay`.
 */
module Scheduler {
  import opened Wrappers

  /** Seconds in a day: `strtotime("+N days", t)` is `t + N * DAY`. */
  const DAY: int := 86400

  /** The timestamp of midnight of the day holding `t` (`date('Y-m-d', t)`). */
  function DayStart(t: int): int { t - t % DAY }

  /** Seconds since midnight (`date('H:i:s', t)`). */
  function TimeOfDay(t: int): int { t % DAY }

  datatype Window = Window(postsPerDay: int, startOfDay: int, endOfDay: int) {

    /** A window the calculator can work with: at least one post a day, a
        non-empty window inside one day, and an interval of whole seconds. */
    predicate Valid() {
      && postsPerDay >= 1
      && 0 <= startOfDay < endOfDay < DAY
      && (endOfDay - startOfDay) % (postsPerDay + 1) == 0
    }

    /** `(end - start) / (publishTimes + 1)`: the window holds exactly
        `postsPerDay + 1` intervals. */
    function Interval(): (i: int)
      requires Valid()
      ensures i >= 1
      ensures i * (postsPerDay + 1) == endOfDay - startOfDay
    {
      (endOfDay - startOfDay) / (postsPerDay + 1)
    }

    /** Second of the day of slot `j`. */
    function SlotTime(j: int): int
      requires Valid()
    {
      startOfDay + Interval() * j
    }
  }

  /** Today's window start, as an absolute timestamp. */
  function WindowStart(w: Window, now: int): int { DayStart(now) + w.startOfDay }

  /** Today's window end, as an absolute timestamp. */
  function WindowEnd(w: Window, now: int): int { DayStart(now) + w.endOfDay }

  /** `t` falls on one of the `postsPerDay` slots of its own day. */
  ghost predicate OnSlot(w: Window, t: int)
    requires w.Valid()
  {
    exists j :: 1 <= j <= w.postsPerDay && TimeOfDay(t) == w.SlotTime(j)
  }

  /** The first phase: one interval after the anchor (or after today's window
      start), corrected when that is not in the future. `remaining` is the
      number of slots the caller counts as still free today. */
  function Forward(w: Window, now: int, index: nat, anchor: Option<int>, remaining: int): int
    requires w.Valid()
  {
    var interval := w.Interval();
    var start := WindowStart(w, now);
    var next := anchor.GetOr(start) + interval;
    if next > now then next
    else
      var needed := index % w.postsPerDay + 1;
      if remaining >= needed then
        var used := w.postsPerDay - remaining;
        start + interval * (used + needed)
      else
        // ceil((index + 1) / postsPerDay) days ahead
        var daysAhead := (index + w.postsPerDay) / w.postsPerDay;
        start + daysAhead * DAY + interval * needed
  }

  /** The second phase: a time at or after the window end of its own day is
      moved to the first slot of a later day. */
  function Clamp(w: Window, now: int, t: int): (r: int)
    requires w.Valid()
    ensures r >= t
    ensures r == t <==> TimeOfDay(t) < w.endOfDay
    ensures TimeOfDay(r) < w.endOfDay
    ensures r != t ==> TimeOfDay(r) == w.SlotTime(1) && DayStart(r) > DayStart(t)
  {
    MidnightAligned(t);
    MidnightAligned(now);
    if t >= WindowEnd(w, now) && DayStart(t) == DayStart(now) then
      // strtotime('tomorrow ' . start) + interval
      FirstSlotOfLaterDay(w, t, DayStart(now) + DAY);
      DayStart(now) + DAY + w.SlotTime(1)
    else if t >= DayStart(t) + w.endOfDay then
      // ceil((t - start) / DAY) days ahead, at the window start, plus one interval
      var daysAhead := (t - WindowStart(w, now) + DAY - 1) / DAY;
      CeilDaysPassT(w, now, t, daysAhead);
      FirstSlotOfLaterDay(w, t, DayStart(now) + daysAhead * DAY);
      DayStart(now) + daysAhead * DAY + w.SlotTime(1)
    else
      t
  }

  /** The first slot of a day after that of `t` lies after `t`, on slot 1. */
  lemma FirstSlotOfLaterDay(w: Window, t: int, midnight: int)
    requires w.Valid() && midnight % DAY == 0 && midnight > DayStart(t)
    ensures TimeOfDay(midnight + w.SlotTime(1)) == w.SlotTime(1)
    ensures DayStart(midnight + w.SlotTime(1)) == midnight
    ensures midnight + w.SlotTime(1) > t
    ensures w.SlotTime(1) < w.endOfDay
  {
    MulMonotone(w.Interval(), 1, w.postsPerDay);
    ShiftByDays(midnight, w.SlotTime(1));
    MidnightAligned(t);
    assert midnight >= DayStart(t) + DAY;
  }

  /** `ceil((t - start) / DAY)` days after today's midnight is a midnight
      after that of `t`, when `t` is at or past its own day's window end. */
  lemma CeilDaysPassT(w: Window, now: int, t: int, daysAhead: int)
    requires w.Valid() && t >= DayStart(t) + w.endOfDay
    requires daysAhead == (t - WindowStart(w, now) + DAY - 1) / DAY
    ensures (DayStart(now) + daysAhead * DAY) % DAY == 0
    ensures DayStart(now) + daysAhead * DAY > DayStart(t)
  {
    MidnightAligned(now);
    var x := t - WindowStart(w, now);
    assert daysAhead * DAY >= x;
  }

  /** `floor((end - now) / interval)`, the count the source uses. */
  function RemainingSlotsAsWritten(w: Window, now: int): int
    requires w.Valid()
  {
    (WindowEnd(w, now) - now) / w.Interval()
  }

  /** The slots of today that lie strictly after `now`. */
  function RemainingSlots(w: Window, now: int): int
    requires w.Valid()
  {
    (WindowEnd(w, now) - now - 1) / w.Interval()
  }

  /** With a free-slot count no larger than the source's, the first phase is
      at least one interval after its baseline and not before `now`; with the
      strict count it is after `now`. */
  lemma ForwardBounds(w: Window, now: int, index: nat, anchor: Option<int>, remaining: int)
    requires w.Valid()
    requires remaining <= RemainingSlotsAsWritten(w, now)
    ensures Forward(w, now, index, anchor, remaining) >= anchor.GetOr(WindowStart(w, now)) + w.Interval()
    ensures Forward(w, now, index, anchor, remaining) >= now
    ensures remaining <= RemainingSlots(w, now) ==> Forward(w, now, index, anchor, remaining) > now
  {
    var interval, start, p := w.Interval(), WindowStart(w, now), w.postsPerDay;
    var next := anchor.GetOr(start) + interval;
    var f := Forward(w, now, index, anchor, remaining);
    if next <= now {
      var needed := index % p + 1;
      if remaining >= needed {
        assert f == start + interval * (p - remaining + needed);
        TodaySlotBounds(interval, p, start, WindowEnd(w, now), now, remaining, needed);
      } else {
        var daysAhead := (index + p) / p;
        assert f == start + daysAhead * DAY + interval * needed;
        assert daysAhead >= 1;
        MulMonotone(interval, 1, needed);
        MidnightAligned(now);
        assert f > now;
      }
    }
  }

  /** The slot `start + interval * (p - remaining + needed)` chosen for today
      is not before `now` when `remaining` does not exceed the whole intervals
      left before the window end, and after `now` when it does not exceed the
      intervals left before `end - 1`. */
  lemma TodaySlotBounds(interval: int, p: int, start: int, end: int, now: int, remaining: int, needed: int)
    requires interval >= 1 && 1 <= needed <= remaining
    requires end == start + interval * (p + 1)
    requires remaining <= (end - now) / interval
    ensures start + interval * (p - remaining + needed) >= now
    ensures remaining <= (end - now - 1) / interval ==> start + interval * (p - remaining + needed) > now
  {
    var m := remaining + 1 - needed;
    assert start + interval * (p - remaining + needed) == end - interval * m;
    MulMonotone(interval, m, remaining);
    FloorMul(end - now, interval);
    MulMonotone(interval, remaining, (end - now) / interval);
    if remaining <= (end - now - 1) / interval {
      FloorMul(end - now - 1, interval);
      MulMonotone(interval, remaining, (end - now - 1) / interval);
    }
  }

  lemma FloorMul(a: int, d: int)
    requires d >= 1
    ensures d * (a / d) <= a
  {
  }

  lemma MulMonotone(d: int, x: int, y: int)
    requires d >= 0 && x <= y
    ensures d * x <= d * y
  {
    assert d * y - d * x == d * (y - x);
  }

  /** `calculate_next_publish_time` as written: the first phase with the
      source's free-slot count, then the day-overflow clamp. */
  function NextPublishTimeAsWritten(w: Window, now: int, index: nat, anchor: Option<int>): (r: int)
    requires w.Valid()
    ensures r >= anchor.GetOr(WindowStart(w, now)) + w.Interval()
    ensures r >= now
    ensures TimeOfDay(r) < w.endOfDay
  {
    ForwardBounds(w, now, index, anchor, RemainingSlotsAsWritten(w, now));
    Clamp(w, now, Forward(w, now, index, anchor, RemainingSlotsAsWritten(w, now)))
  }

  /** The next publish time, counting only the slots strictly after `now` as
      free: always in the future, at least one interval after the anchor and
      before the window end of its day. */
  function NextPublishTime(w: Window, now: int, index: nat, anchor: Option<int>): (r: int)
    requires w.Valid()
    ensures r >= anchor.GetOr(WindowStart(w, now)) + w.Interval()
    ensures r > now
    ensures TimeOfDay(r) < w.endOfDay
  {
    assert RemainingSlots(w, now) <= RemainingSlotsAsWritten(w, now) by {
      DivMonotone(WindowEnd(w, now) - now - 1, WindowEnd(w, now) - now, w.Interval());
    }
    ForwardBounds(w, now, index, anchor, RemainingSlots(w, now));
    Clamp(w, now, Forward(w, now, index, anchor, RemainingSlots(w, now)))
  }

  lemma DivMonotone(a: int, b: int, d: int)
    requires a <= b && d >= 1
    ensures a / d <= b / d
  {
    var qa, qb := a / d, b / d;
    if qa > qb {
      MulMonotone(d, qb + 1, qa);
      FloorMul(a, d);
      assert false;
    }
  }

  /** Forward step: a candidate one interval after the anchor that is in the
      future and before its day's window end is returned unchanged. */
  lemma ForwardStepKept(w: Window, now: int, index: nat, anchor: Option<int>)
    requires w.Valid()
    requires anchor.GetOr(WindowStart(w, now)) + w.Interval() > now
    requires TimeOfDay(anchor.GetOr(WindowStart(w, now)) + w.Interval()) < w.endOfDay
    ensures NextPublishTime(w, now, index, anchor) == anchor.GetOr(WindowStart(w, now)) + w.Interval()
  {
  }

  /** Past-slot correction, today, for any free-slot count no larger than
      the source's: when the candidate is not in the future and at least
      `needed` slots are counted as free, the post takes slot
      `used + needed` of today, which is not before `now` (after it unless
      `needed` is 1), before today's window end, and after `now` whenever
      the count leaves out a slot at `now`. */
  lemma PastSlotTodayWith(w: Window, now: int, index: nat, anchor: Option<int>, remaining: int)
    requires w.Valid()
    requires anchor.GetOr(WindowStart(w, now)) + w.Interval() <= now
    requires index % w.postsPerDay + 1 <= remaining <= RemainingSlotsAsWritten(w, now)
    ensures var used := w.postsPerDay - remaining;
            Clamp(w, now, Forward(w, now, index, anchor, remaining))
              == WindowStart(w, now) + w.Interval() * (used + index % w.postsPerDay + 1)
    ensures now <= Clamp(w, now, Forward(w, now, index, anchor, remaining)) < WindowEnd(w, now)
    ensures index % w.postsPerDay >= 1 ==> Clamp(w, now, Forward(w, now, index, anchor, remaining)) > now
    ensures remaining <= RemainingSlots(w, now) ==> Clamp(w, now, Forward(w, now, index, anchor, remaining)) > now
  {
    var interval, p, end := w.Interval(), w.postsPerDay, WindowEnd(w, now);
    var needed := index % p + 1;
    var f := Forward(w, now, index, anchor, remaining);
    var j := p - remaining + needed;
    assert f == WindowStart(w, now) + interval * j;
    ForwardBounds(w, now, index, anchor, remaining);
    assert f < end by {
      MulMonotone(interval, j, p);
    }
    if needed >= 2 {
      assert f == end - interval * remaining + interval * (needed - 1);
      FloorMul(end - now, interval);
      MulMonotone(interval, remaining, RemainingSlotsAsWritten(w, now));
      MulMonotone(interval, 1, needed - 1);
    }
    ClampToday(w, now, f);
  }

  /** Past-slot correction, rolled forward, for any free-slot count: when
      fewer than `needed` slots are counted as free, the post goes
      `ceil((index + 1) / postsPerDay)` days ahead, on slot `needed` of
      that day. */
  lemma PastSlotLaterDayWith(w: Window, now: int, index: nat, anchor: Option<int>, remaining: int)
    requires w.Valid()
    requires anchor.GetOr(WindowStart(w, now)) + w.Interval() <= now
    requires remaining < index % w.postsPerDay + 1
    ensures var needed := index % w.postsPerDay + 1;
            var daysAhead := (index + w.postsPerDay) / w.postsPerDay;
            Clamp(w, now, Forward(w, now, index, anchor, remaining))
              == WindowStart(w, now) + daysAhead * DAY + w.Interval() * needed
    ensures TimeOfDay(Clamp(w, now, Forward(w, now, index, anchor, remaining)))
              == w.SlotTime(index % w.postsPerDay + 1)
    ensures DayStart(Clamp(w, now, Forward(w, now, index, anchor, remaining))) > DayStart(now)
  {
    var p := w.postsPerDay;
    var needed := index % p + 1;
    var daysAhead := (index + p) / p;
    var midnight := DayStart(now) + daysAhead * DAY;
    var tod := w.SlotTime(needed);
    assert Forward(w, now, index, anchor, remaining) == midnight + tod;
    assert midnight % DAY == 0 && midnight > DayStart(now) by {
      assert daysAhead >= 1;
      MidnightAligned(now);
    }
    assert 0 <= tod < w.endOfDay by {
      MulMonotone(w.Interval(), 1, needed);
      MulMonotone(w.Interval(), needed, p);
    }
    ShiftByDays(midnight, tod);
  }

  /** Past-slot correction, today: when the candidate is not in the future and
      enough slots remain today, the post takes the `needed`-th free slot of
      today, which lies after `now` and before today's window end. */
  lemma PastSlotFitsToday(w: Window, now: int, index: nat, anchor: Option<int>)
    requires w.Valid()
    requires anchor.GetOr(WindowStart(w, now)) + w.Interval() <= now
    requires RemainingSlots(w, now) >= index % w.postsPerDay + 1
    ensures var used := w.postsPerDay - RemainingSlots(w, now);
            NextPublishTime(w, now, index, anchor)
              == WindowStart(w, now) + w.Interval() * (used + index % w.postsPerDay + 1)
    ensures now < NextPublishTime(w, now, index, anchor) < WindowEnd(w, now)
  {
    DivMonotone(WindowEnd(w, now) - now - 1, WindowEnd(w, now) - now, w.Interval());
    PastSlotTodayWith(w, now, index, anchor, RemainingSlots(w, now));
  }

  /** The same branch as written, with the source's count: the slot is
      `used + needed` for that count, at or after `now`, and equal to `now`
      only for the first post of a day's round (`index mod postsPerDay` 0). */
  lemma PastSlotFitsTodayAsWritten(w: Window, now: int, index: nat, anchor: Option<int>)
    requires w.Valid()
    requires anchor.GetOr(WindowStart(w, now)) + w.Interval() <= now
    requires RemainingSlotsAsWritten(w, now) >= index % w.postsPerDay + 1
    ensures var used := w.postsPerDay - RemainingSlotsAsWritten(w, now);
            NextPublishTimeAsWritten(w, now, index, anchor)
              == WindowStart(w, now) + w.Interval() * (used + index % w.postsPerDay + 1)
    ensures now <= NextPublishTimeAsWritten(w, now, index, anchor) < WindowEnd(w, now)
    ensures NextPublishTimeAsWritten(w, now, index, anchor) == now ==> index % w.postsPerDay == 0
  {
    PastSlotTodayWith(w, now, index, anchor, RemainingSlotsAsWritten(w, now));
  }

  /** A time between today's midnight and today's window end is kept. */
  lemma ClampToday(w: Window, now: int, t: int)
    requires w.Valid() && DayStart(now) <= t < WindowEnd(w, now)
    ensures Clamp(w, now, t) == t
  {
    MidnightAligned(now);
    ShiftByDays(DayStart(now), t - DayStart(now));
  }

  /** Past-slot correction, rolled forward: when too few slots remain today,
      the post goes `ceil((index + 1) / postsPerDay)` days ahead, on slot
      `(index mod postsPerDay) + 1` of that day. */
  lemma PastSlotRollsForward(w: Window, now: int, index: nat, anchor: Option<int>)
    requires w.Valid()
    requires anchor.GetOr(WindowStart(w, now)) + w.Interval() <= now
    requires RemainingSlots(w, now) < index % w.postsPerDay + 1
    ensures var needed := index % w.postsPerDay + 1;
            var daysAhead := (index + w.postsPerDay) / w.postsPerDay;
            NextPublishTime(w, now, index, anchor)
              == WindowStart(w, now) + daysAhead * DAY + w.Interval() * needed
    ensures TimeOfDay(NextPublishTime(w, now, index, anchor)) == w.SlotTime(index % w.postsPerDay + 1)
    ensures DayStart(NextPublishTime(w, now, index, anchor)) > DayStart(now)
  {
    PastSlotLaterDayWith(w, now, index, anchor, RemainingSlots(w, now));
  }

  /** The same branch as written, with the source's count. */
  lemma PastSlotRollsForwardAsWritten(w: Window, now: int, index: nat, anchor: Option<int>)
    requires w.Valid()
    requires anchor.GetOr(WindowStart(w, now)) + w.Interval() <= now
    requires RemainingSlotsAsWritten(w, now) < index % w.postsPerDay + 1
    ensures var needed := index % w.postsPerDay + 1;
            var daysAhead := (index + w.postsPerDay) / w.postsPerDay;
            NextPublishTimeAsWritten(w, now, index, anchor)
              == WindowStart(w, now) + daysAhead * DAY + w.Interval() * needed
    ensures TimeOfDay(NextPublishTimeAsWritten(w, now, index, anchor)) == w.SlotTime(index % w.postsPerDay + 1)
    ensures DayStart(NextPublishTimeAsWritten(w, now, index, anchor)) > DayStart(now)
  {
    PastSlotLaterDayWith(w, now, index, anchor, RemainingSlotsAsWritten(w, now));
  }

  /** A first-phase time before the window end of its day is the result. */
  lemma ForwardKept(w: Window, now: int, index: nat, anchor: Option<int>)
    requires w.Valid()
    requires TimeOfDay(Forward(w, now, index, anchor, RemainingSlots(w, now))) < w.endOfDay
    ensures NextPublishTime(w, now, index, anchor) == Forward(w, now, index, anchor, RemainingSlots(w, now))
  {
  }

  /** A time of day added to a midnight keeps that midnight as its day. */
  lemma MidnightAligned(t: int)
    ensures DayStart(t) % DAY == 0 && 0 <= TimeOfDay(t) < DAY
    ensures t == DayStart(t) + TimeOfDay(t)
  {
  }

  lemma ShiftByDays(midnight: int, tod: int)
    requires midnight % DAY == 0 && 0 <= tod < DAY
    ensures DayStart(midnight + tod) == midnight && TimeOfDay(midnight + tod) == tod
  {
  }

  /** The anchor of the `k`-th time of a recalculation: the previous time. */
  function Last(ts: seq<int>): (a: Option<int>)
    ensures a.Some? <==> |ts| > 0
    ensures a.Some? ==> a.value == ts[|ts| - 1]
  {
    if ts == [] then None else Some(ts[|ts| - 1])
  }

  /** Each time is later than the one before. */
  predicate Increasing(ts: seq<int>) {
    forall i, j :: 0 <= i < j < |ts| ==> ts[i] < ts[j]
  }

  /** Every time is later than `now`. */
  predicate After(ts: seq<int>, now: int) {
    forall k :: 0 <= k < |ts| ==> ts[k] > now
  }

  /** The times `recalculate_publish_times` gives to a queue of `n` posts:
      each is computed from its index and the time before it. */
  function Schedule(w: Window, now: int, n: nat): (ts: seq<int>)
    requires w.Valid()
    ensures |ts| == n
  {
    if n == 0 then []
    else
      var prev := Schedule(w, now, n - 1);
      prev + [NextPublishTime(w, now, n - 1, Last(prev))]
  }

  /** The recalculated times are strictly increasing and all in the
      future. */
  lemma {:induction false} ScheduleOrdered(w: Window, now: int, n: nat)
    requires w.Valid()
    ensures Increasing(Schedule(w, now, n)) && After(Schedule(w, now, n), now)
  {
    if n > 0 {
      ScheduleOrdered(w, now, n - 1);
      var prev := Schedule(w, now, n - 1);
      var t := NextAfterLast(w, now, prev);
      assert Schedule(w, now, n) == prev + [t];
      SnocIncreasing(prev, t, now);
    }
  }

  /** Extending a strictly increasing sequence of times after `now` by a
      later time keeps it so. */
  lemma SnocIncreasing(prev: seq<int>, t: int, now: int)
    requires Increasing(prev) && After(prev, now)
    requires t > now && (prev != [] ==> t > prev[|prev| - 1])
    ensures Increasing(prev + [t]) && After(prev + [t], now)
  {
    var ts := prev + [t];
    forall i, j | 0 <= i < j < |ts|
      ensures ts[i] < ts[j]
    {
      if j < |prev| {
        assert ts[i] == prev[i] && ts[j] == prev[j];
      } else if i < |prev| - 1 {
        assert ts[i] == prev[i] < prev[|prev| - 1];
      }
    }
  }

  /** The time computed after `prev` lies after its last entry and after
      `now`. */
  lemma NextAfterLast(w: Window, now: int, prev: seq<int>) returns (t: int)
    requires w.Valid()
    ensures t == NextPublishTime(w, now, |prev|, Last(prev))
    ensures t > now && (prev != [] ==> t > prev[|prev| - 1])
  {
    t := NextPublishTime(w, now, |prev|, Last(prev));
  }

  /** Every recalculated time lies on one of the `postsPerDay` slots of its
      day, so no day holds more than `postsPerDay` of them. */
  lemma {:induction false} ScheduleOnSlots(w: Window, now: int, n: nat)
    requires w.Valid()
    ensures forall k :: 0 <= k < n ==> OnSlot(w, Schedule(w, now, n)[k])
  {
    if n > 0 {
      ScheduleOnSlots(w, now, n - 1);
      var prev := Schedule(w, now, n - 1);
      if n == 1 {
        FirstOnSlot(w, now);
      } else {
        StepOnSlot(w, now, n - 1, prev[n - 2]);
      }
    }
  }

  lemma FirstOnSlot(w: Window, now: int)
    requires w.Valid()
    ensures OnSlot(w, NextPublishTime(w, now, 0, None))
  {
    var r := NextPublishTime(w, now, 0, None);
    if WindowStart(w, now) + w.Interval() > now {
      FirstSlotInFuture(w, now);
      assert TimeOfDay(r) == w.SlotTime(1);
    } else if RemainingSlots(w, now) >= 1 {
      var j := FirstSlotLaterToday(w, now);
      assert TimeOfDay(r) == w.SlotTime(j);
    } else {
      PastSlotRollsForward(w, now, 0, None);
      assert TimeOfDay(r) == w.SlotTime(1);
    }
  }

  /** Before today's first slot, the first post takes it. */
  lemma FirstSlotInFuture(w: Window, now: int)
    requires w.Valid() && WindowStart(w, now) + w.Interval() > now
    ensures NextPublishTime(w, now, 0, None) == WindowStart(w, now) + w.Interval()
    ensures TimeOfDay(NextPublishTime(w, now, 0, None)) == w.SlotTime(1)
  {
    var t := WindowStart(w, now) + w.Interval();
    assert Forward(w, now, 0, None, RemainingSlots(w, now)) == t;
    assert w.SlotTime(1) < w.endOfDay by {
      MulMonotone(w.Interval(), 1, w.postsPerDay);
    }
    MidnightAligned(now);
    ShiftByDays(DayStart(now), w.SlotTime(1));
  }

  /** After today's first slot, with a slot still free, the first post takes
      the first free slot of today. */
  lemma FirstSlotLaterToday(w: Window, now: int) returns (j: int)
    requires w.Valid() && WindowStart(w, now) + w.Interval() <= now
    requires RemainingSlots(w, now) >= 1
    ensures 1 <= j <= w.postsPerDay
    ensures TimeOfDay(NextPublishTime(w, now, 0, None)) == w.SlotTime(j)
  {
    var interval, p, start := w.Interval(), w.postsPerDay, WindowStart(w, now);
    PastSlotFitsToday(w, now, 0, None);
    j := p - RemainingSlots(w, now) + 1;
    var r := NextPublishTime(w, now, 0, None);
    assert r == start + interval * j;
    if j <= 1 {
      MulMonotone(interval, j, 1);
      assert false;
    }
    MidnightAligned(now);
    ShiftByDays(DayStart(now), w.SlotTime(j));
  }

  lemma StepOnSlot(w: Window, now: int, index: nat, anchor: int)
    requires w.Valid()
    requires anchor > now && OnSlot(w, anchor)
    ensures OnSlot(w, NextPublishTime(w, now, index, Some(anchor)))
  {
    var j :| 1 <= j <= w.postsPerDay && TimeOfDay(anchor) == w.SlotTime(j);
    var r := NextPublishTime(w, now, index, Some(anchor));
    if j < w.postsPerDay {
      StepWithinDay(w, now, index, anchor, j);
      NextSlotSameDay(w, anchor, j);
      assert TimeOfDay(r) == w.SlotTime(j + 1);
    } else {
      StepPastWindowEnd(w, now, index, anchor);
      assert TimeOfDay(r) == w.SlotTime(1);
    }
  }

  /** One interval after a slot of its day is the next slot of that day. */
  lemma NextSlotSameDay(w: Window, anchor: int, j: int)
    requires w.Valid() && 1 <= j <= w.postsPerDay
    requires TimeOfDay(anchor) == w.SlotTime(j)
    ensures TimeOfDay(anchor + w.Interval()) == w.SlotTime(j + 1)
    ensures DayStart(anchor + w.Interval()) == DayStart(anchor)
  {
    var interval := w.Interval();
    var tod := w.SlotTime(j + 1);
    assert tod == w.SlotTime(j) + interval;
    MulMonotone(interval, j + 1, w.postsPerDay + 1);
    assert 0 <= tod <= w.endOfDay;
    MidnightAligned(anchor);
    assert anchor + interval == DayStart(anchor) + tod;
    ShiftByDays(DayStart(anchor), tod);
  }

  /** A future anchor on slot `j < postsPerDay` is followed by slot `j + 1`. */
  lemma StepWithinDay(w: Window, now: int, index: nat, anchor: int, j: int)
    requires w.Valid() && 1 <= j < w.postsPerDay
    requires anchor > now && TimeOfDay(anchor) == w.SlotTime(j)
    ensures NextPublishTime(w, now, index, Some(anchor)) == anchor + w.Interval()
  {
    var t := anchor + w.Interval();
    assert Forward(w, now, index, Some(anchor), RemainingSlots(w, now)) == t;
    assert TimeOfDay(t) < w.endOfDay by {
      NextSlotSameDay(w, anchor, j);
      MulMonotone(w.Interval(), j + 1, w.postsPerDay);
    }
    ForwardKept(w, now, index, Some(anchor));
  }

  /** A future anchor on the last slot of its day is followed by the first
      slot of a later day. */
  lemma StepPastWindowEnd(w: Window, now: int, index: nat, anchor: int)
    requires w.Valid() && anchor > now && TimeOfDay(anchor) == w.SlotTime(w.postsPerDay)
    ensures TimeOfDay(NextPublishTime(w, now, index, Some(anchor))) == w.SlotTime(1)
    ensures DayStart(NextPublishTime(w, now, index, Some(anchor))) > DayStart(anchor)
  {
    NextSlotSameDay(w, anchor, w.postsPerDay);
    assert w.SlotTime(w.postsPerDay + 1) == w.endOfDay;
  }

  /** With two posts a day in a 12 am - 1 am window, recalculating three posts
      at 10 am of day 0 gives day 1 00:20, day 1 00:40 and day 2 00:20. */
  lemma TwoPerDayExample()
    ensures Schedule(Window(2, 0, 3600), 36000, 3) == [87600, 88800, 174000]
  {
    var w := Window(2, 0, 3600);
    assert w.Interval() == 1200;
    assert NextPublishTime(w, 36000, 0, None) == 87600;
    assert NextPublishTime(w, 36000, 1, Some(87600)) == 88800;
    assert NextPublishTime(w, 36000, 2, Some(88800)) == 174000;
    assert Schedule(w, 36000, 1) == [87600];
    assert Schedule(w, 36000, 2) == [87600, 88800];
  }

  /** On a slot boundary the source's count returns `now` itself: with two
      posts a day in a 12 am - 1 am window at 00:20, the first post is given
      00:20. Counting only the slots after `now` gives 00:40. */
  lemma SlotBoundaryGivesNow()
    ensures NextPublishTimeAsWritten(Window(2, 0, 3600), 1200, 0, None) == 1200
    ensures NextPublishTime(Window(2, 0, 3600), 1200, 0, None) == 2400
  {
    BoundaryCounts();
    BoundaryForward();
    ShiftByDays(0, 1200);
    ShiftByDays(0, 2400);
  }

  /** On the same boundary the source's count puts every past-slot result one
      slot earlier than the count of slots after `now`: with the first post
      at 00:00, the second is given 00:40 today by the source and 00:40 of
      the next day by the strict count, which sees only the 00:40 slot free
      and needs two. */
  lemma SlotBoundaryShiftsSecondPost()
    ensures NextPublishTimeAsWritten(Window(2, 0, 3600), 1200, 1, Some(0)) == 2400
    ensures NextPublishTime(Window(2, 0, 3600), 1200, 1, Some(0)) == 88800
  {
    BoundaryCounts();
    PastSlotFitsTodayAsWritten(Window(2, 0, 3600), 1200, 1, Some(0));
    PastSlotRollsForward(Window(2, 0, 3600), 1200, 1, Some(0));
  }

  lemma BoundaryCounts()
    ensures Window(2, 0, 3600).Valid() && Window(2, 0, 3600).Interval() == 1200
    ensures RemainingSlotsAsWritten(Window(2, 0, 3600), 1200) == 2
    ensures RemainingSlots(Window(2, 0, 3600), 1200) == 1
  {
    assert DayStart(1200) == 0;
  }

  lemma BoundaryForward()
    ensures Window(2, 0, 3600).Valid()
    ensures Forward(Window(2, 0, 3600), 1200, 0, None, 2) == 1200
    ensures Forward(Window(2, 0, 3600), 1200, 0, None, 1) == 2400
  {
    assert DayStart(1200) == 0;
  }

}
