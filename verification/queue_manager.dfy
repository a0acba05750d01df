/**
 * The queue manager: gives queued posts their publish times and keeps the
 * stored post dates and the `publish_queued_post` events in step with the
 * queue. Each method of `Manager` is specified by a function giving the
 * site state it leaves behind; the lemmas say what those states guarantee.
 */
module QueueManager {
  import opened Wrappers
  import opened PhpValues
  import opened Scheduler
  import opened Settings
  import opened PostIds
  import opened QueueState

  /** An entry of the list `recalculate_publish_times` returns. */
  datatype UpdatedPost = UpdatedPost(id: PostId, newPublishTime: int)

  /** `updated` reports the posts `ids` with the times `times`, in order. */
  predicate Reported(updated: seq<UpdatedPost>, ids: seq<PostId>, times: seq<int>) {
    && |updated| == |ids| == |times|
    && forall k :: 0 <= k < |ids| ==> updated[k] == UpdatedPost(ids[k], times[k])
  }

  /** The time `queue_post` gives `p`: the next time after the post before
      it in the rebuilt queue, for the index of the last entry. */
  function QueueTime(s: SiteState, w: Window, p: PostId, now: int): int
    requires w.Valid() && p in s.order && forall x :: x in s.order ==> x in s.dates
  {
    var q := MoveToEnd(s.order, p);
    NextPublishTime(w, now, |q| - 1, QueueAnchor(q, s.dates))
  }

  /** One more reported post. */
  lemma ReportedOneMore(updated: seq<UpdatedPost>, ids: seq<PostId>, times: seq<int>, i: nat, t: int)
    requires i < |ids| && Reported(updated, ids[..i], times)
    ensures Reported(updated + [UpdatedPost(ids[i], t)], ids[..i + 1], times + [t])
  {
    SliceSnoc(ids, i);
  }

  /** The site after `queue_post(p)`: `p` moved to the end of the queue
      and dated; its event scheduled unless the queue is paused. */
  function AfterQueuePost(s: SiteState, w: Window, paused: bool, p: PostId, now: int): SiteState
    requires w.Valid() && p in s.order && forall x :: x in s.order ==> x in s.dates
  {
    Queued(s, paused, p, QueueTime(s, w, p, now))
  }

  /** The site once `p` is moved to the end of the queue with date `t`,
      and its event at `t` is added unless paused or already there. */
  function Queued(s: SiteState, paused: bool, p: PostId, t: int): SiteState
    requires p in s.order
  {
    s.(order := MoveToEnd(s.order, p),
       dates := s.dates[p := t],
       events := if paused then s.events else ScheduleOnce(s.events, p, t))
  }

  /** The site after `recalculate_publish_times` has worked through `ids`:
      nothing is written while paused; otherwise every post of `ids` gets
      its computed date and one event at that date, and the listing follows
      the new dates. */
  function AfterRecalculate(s: SiteState, w: Window, paused: bool, ids: seq<PostId>, now: int): SiteState
    requires w.Valid()
  {
    if paused then s else Rescheduled(s, ids, Schedule(w, now, |ids|))
  }

  /** The site once every post of `ids` is dated at, and has its only
      event at, its time in `times`; the listing then follows `ids`. */
  function Rescheduled(s: SiteState, ids: seq<PostId>, times: seq<int>): SiteState
    requires |ids| == |times|
  {
    s.(dates := Assign(s.dates, ids, times),
       events := Cancel(s.events, Elements(ids)) + EventsFor(ids, times),
       order := ids)
  }

  /** The site part-way through a recalculation: the first `|times|` posts
      of `ids` have their new dates and events; the listing is unchanged. */
  function Partial(s: SiteState, ids: seq<PostId>, times: seq<int>): SiteState
    requires |times| <= |ids|
  {
    var done := ids[..|times|];
    s.(dates := Assign(s.dates, done, times),
       events := Cancel(s.events, Elements(done)) + EventsFor(done, times))
  }

  lemma PartialStart(s: SiteState, ids: seq<PostId>)
    ensures Partial(s, ids, []) == s
  {
    CancelNothing(s.events, Elements(ids[..0]));
    assert s.events + EventsFor(ids[..0], []) == s.events;
  }

  /** One more post rescheduled and redated. */
  lemma PartialStep(s: SiteState, ids: seq<PostId>, times: seq<int>, t: int)
    requires OneEventPerPost(s.events) && Distinct(ids) && |times| < |ids|
    ensures var m := Partial(s, ids, times);
            && OneEventPerPost(m.events)
            && Partial(s, ids, times + [t])
               == m.(events := Reschedule(m.events, ids[|times|], t),
                     dates := m.dates[ids[|times|] := t])
  {
    RescheduleStep(s.events, ids, times, t);
    AssignOneMore(s.dates, ids, times, t);
  }

  lemma PartialDone(s: SiteState, ids: seq<PostId>, times: seq<int>)
    requires |times| == |ids|
    ensures Partial(s, ids, times).(order := ids) == Rescheduled(s, ids, times)
  {
    assert ids[..|times|] == ids;
  }

  /** The site after `pause_queue`: the events of the queued posts are gone. */
  function AfterPause(s: SiteState): SiteState {
    s.(events := Cancel(s.events, Elements(s.order)))
  }

  /** The key the manager reads its paused flag under, and the key every
      settings array handed to it carries the flag under. */
  const MANAGER_PAUSED_KEY := "wpQueuePaused"
  const SETTINGS_PAUSED_KEY := "postQueuePaused"

  /** The settings array the plugin builds from the stored options and
      hands to the manager: the same four keys wherever it is built. */
  function SettingsArray(s: Settings): (a: map<string, PhpValue>)
    ensures a.Keys == {"publishTimes", "startTime", "endTime", SETTINGS_PAUSED_KEY}
  {
    map["publishTimes" := PInt(s.publishTimes), "startTime" := PStr(s.startTime),
        "endTime" := PStr(s.endTime), SETTINGS_PAUSED_KEY := PBool(s.paused)]
  }

  /** `$this->settings[key]` read as a condition: a missing key reads as
      null, which is false. Under the key the manager uses nothing is ever
      found, whatever the settings say; under the key the array carries the
      entry is the paused setting. */
  function PausedEntry(settings: Settings, key: string): (r: bool)
    ensures key == MANAGER_PAUSED_KEY ==> !r
    ensures key == SETTINGS_PAUSED_KEY ==> (r <==> settings.paused)
  {
    var a := SettingsArray(settings);
    key in a && !Empty(a[key])
  }

  /** The site after `publish_post_now(p)`: unless paused, an existing post
      becomes published and so leaves the queue. */
  function AfterPublish(s: SiteState, paused: bool, p: PostId): SiteState {
    if paused || p !in s.statuses then s
    else s.(statuses := s.statuses[p := PUBLISH], order := Without(s.order, p))
  }

  /** The site after `handle_post_status_change(newStatus, oldStatus, p)`,
      called once the new status is stored. */
  function AfterStatusChange(s: SiteState, w: Window, paused: bool,
                             newStatus: string, oldStatus: string, p: PostId, now: int): SiteState
    requires w.Valid() && WellFormed(s) && p in s.statuses && s.statuses[p] == newStatus
  {
    if newStatus == QUEUED && oldStatus != QUEUED then
      AfterQueuePost(s, w, paused, p, now)
    else if oldStatus == QUEUED && newStatus != QUEUED && newStatus != PUBLISH then
      AfterRecalculate(s.(events := Unschedule(s.events, p)), w, paused, s.order, now)
    else s
  }

  /** As written, `publish_post_now` reads its flag under `wpQueuePaused`,
      which no settings array carries, so the event of a post in a paused
      queue still publishes it; read under the key the settings carry, the
      paused queue leaves the post queued. */
  lemma PublishIgnoresPauseAsWritten(s: SiteState, settings: Settings, p: PostId)
    requires settings.paused && p in s.statuses && s.statuses[p] == QUEUED
    ensures AfterPublish(s, PausedEntry(settings, MANAGER_PAUSED_KEY), p).statuses[p] == PUBLISH
    ensures AfterPublish(s, PausedEntry(settings, SETTINGS_PAUSED_KEY), p).statuses[p] == QUEUED
  {
  }

  /** `queue_post` keeps the queue well formed, puts `p` last with a date
      later than every other queued post's and later than now, keeps the
      others in their order, and leaves `p` with an event unless paused. */
  lemma QueuePostKeepsQueue(s: SiteState, w: Window, paused: bool, p: PostId, now: int)
    requires w.Valid() && WellFormed(s) && p in s.order
    ensures var r := AfterQueuePost(s, w, paused, p, now);
            && WellFormed(r)
            && r.order == Without(s.order, p) + [p]
            && r.dates[p] > now
            && (forall x :: x in r.order && x != p ==> r.dates[x] < r.dates[p])
            && r.statuses == s.statuses
            && (!paused ==> NextScheduled(r.events, p).Some?)
  {
    QueueTimeBounds(s, w, p, now);
    QueuedKeepsQueue(s, paused, p, QueueTime(s, w, p, now));
  }

  /** The time `queue_post` gives lies after now and after the date of the
      post that ends up right before `p`. */
  lemma QueueTimeBounds(s: SiteState, w: Window, p: PostId, now: int)
    requires w.Valid() && Distinct(s.order) && p in s.order
    requires forall x :: x in s.order ==> x in s.dates
    ensures var t, rest := QueueTime(s, w, p, now), Without(s.order, p);
            t > now && (rest != [] ==> t > s.dates[rest[|rest| - 1]])
  {
    AnchorIsPrevious(s.order, s.dates, p);
  }

  /** Moving `p` to the end with a date after the last of the others keeps
      the queue well formed and makes `p`'s date the latest. */
  lemma QueuedKeepsQueue(s: SiteState, paused: bool, p: PostId, t: int)
    requires WellFormed(s) && p in s.order
    requires var rest := Without(s.order, p); rest != [] ==> t > s.dates[rest[|rest| - 1]]
    ensures var r := Queued(s, paused, p, t);
            && WellFormed(r)
            && r.order == Without(s.order, p) + [p]
            && r.dates[p] == t
            && (forall x :: x in r.order && x != p ==> r.dates[x] < t)
            && r.statuses == s.statuses
            && (!paused ==> NextScheduled(r.events, p).Some?)
  {
    var r := Queued(s, paused, p, t);
    AppendLatest(s.order, p, s.dates, t);
    MoveToEndShape(s.order, p);
    assert r.statuses.Keys == r.dates.Keys by {
      assert p in s.dates;
    }
    assert forall x :: x in r.order <==> x in s.order;
  }

  /** `queue_post` anchors on the post that comes right before `p` in the
      rebuilt queue, and on none when `p` is alone. */
  lemma AnchorIsPrevious(order: seq<PostId>, dates: map<PostId, int>, p: PostId)
    requires Distinct(order) && p in order && forall x :: x in order ==> x in dates
    ensures var rest := Without(order, p);
            QueueAnchor(MoveToEnd(order, p), dates)
            == if rest == [] then None else Some(dates[rest[|rest| - 1]])
  {
    var q := MoveToEnd(order, p);
    var rest := Without(order, p);
    MoveToEndShape(order, p);
    if rest != [] {
      assert q[|q| - 2] == rest[|rest| - 1];
    }
  }

  /** Appending `p` with a date later than the last of the others keeps the
      listing sorted, and `p`'s date is the latest. */
  lemma AppendLatest(order: seq<PostId>, p: PostId, dates: map<PostId, int>, t: int)
    requires Distinct(order) && p in order && SortedByDate(order, dates)
    requires var rest := Without(order, p); rest != [] ==> t > dates[rest[|rest| - 1]]
    ensures SortedByDate(Without(order, p) + [p], dates[p := t])
    ensures forall x :: x in order && x != p ==> dates[x] < t
  {
    var rest := Without(order, p);
    WithoutSorted(order, p, dates);
    SortedSnoc(rest, p, dates, t);
  }

  /** A sorted listing without `p`, extended by `p` dated after its last
      entry, is sorted and ends with the latest date. */
  lemma SortedSnoc(rest: seq<PostId>, p: PostId, dates: map<PostId, int>, t: int)
    requires p !in rest && SortedByDate(rest, dates)
    requires rest != [] ==> t > dates[rest[|rest| - 1]]
    ensures SortedByDate(rest + [p], dates[p := t])
    ensures forall x :: x in rest ==> dates[x] < t
  {
    var d := dates[p := t];
    var r := rest + [p];
    forall i, j | 0 <= i < j < |r|
      ensures d[r[i]] <= d[r[j]]
    {
      assert r[i] == rest[i];
      if j < |rest| {
        assert r[j] == rest[j];
      } else {
        assert dates[rest[i]] <= dates[rest[|rest| - 1]];
      }
    }
    forall x | x in rest
      ensures dates[x] < t
    {
      var i :| 0 <= i < |rest| && rest[i] == x;
      assert dates[rest[i]] <= dates[rest[|rest| - 1]];
    }
  }

  /** With distinct posts in the table, a post's event is the one `wp_next_scheduled` finds. */
  lemma NextScheduledUnique(events: seq<CronEvent>, p: PostId, t: int)
    requires OneEventPerPost(events) && CronEvent(p, t) in events
    ensures NextScheduled(events, p) == Some(t)
  {
    var i :| 0 <= i < |events| && events[i] == CronEvent(p, t);
    assert p in Posts(events) by {
      assert Posts(events)[i] == p;
    }
    var u := NextScheduled(events, p).value;
    var j :| 0 <= j < |events| && events[j] == CronEvent(p, u);
    assert Posts(events)[i] == Posts(events)[j];
  }

  /** Recalculating a permutation of the queue keeps the queue well formed;
      when not paused the listing becomes the requested order, every post
      of it carries its computed time as its date and as its only event,
      and the dates and events of other posts are kept. */
  lemma RecalculateKeepsQueue(s: SiteState, w: Window, paused: bool, ids: seq<PostId>, now: int)
    requires w.Valid() && WellFormed(s) && IsPermutation(s.order, ids)
    ensures var r := AfterRecalculate(s, w, paused, ids, now);
            var times := Schedule(w, now, |ids|);
            && WellFormed(r)
            && (!paused ==> r.order == ids)
            && (!paused ==> forall k :: 0 <= k < |ids| ==> r.dates[ids[k]] == times[k])
            && (!paused ==> forall k :: 0 <= k < |ids| ==> NextScheduled(r.events, ids[k]) == Some(times[k]))
            && (!paused ==> forall q :: q in s.dates && q !in ids ==> r.dates[q] == s.dates[q])
            && (!paused ==> forall e :: e in s.events && e.post !in ids ==> e in r.events)
  {
    if !paused {
      ScheduleOrdered(w, now, |ids|);
      RescheduledKeepsQueue(s, ids, Schedule(w, now, |ids|));
    }
  }

  /** Giving a permutation of the queue increasing times keeps the queue
      well formed, and each post gets its time as date and as only event. */
  lemma RescheduledKeepsQueue(s: SiteState, ids: seq<PostId>, times: seq<int>)
    requires WellFormed(s) && IsPermutation(s.order, ids) && |times| == |ids|
    requires Increasing(times)
    ensures var r := Rescheduled(s, ids, times);
            && WellFormed(r)
            && r.order == ids
            && (forall k :: 0 <= k < |ids| ==> r.dates[ids[k]] == times[k])
            && (forall k :: 0 <= k < |ids| ==> NextScheduled(r.events, ids[k]) == Some(times[k]))
            && (forall q :: q in s.dates && q !in ids ==> r.dates[q] == s.dates[q])
            && (forall e :: e in s.events && e.post !in ids ==> e in r.events)
  {
    var r := Rescheduled(s, ids, times);
    RescheduledDates(s.dates, ids, times);
    RescheduledEvents(s.events, ids, times);
    assert SortedByDate(r.order, r.dates);
  }

  /** The dates part of a rescheduling: each post of `ids` gets its time,
      other posts keep theirs, and no post is added when `ids` are all
      dated already. */
  lemma RescheduledDates(dates: map<PostId, int>, ids: seq<PostId>, times: seq<int>)
    requires Distinct(ids) && |times| == |ids| && forall x :: x in ids ==> x in dates
    ensures var r := Assign(dates, ids, times);
            && r.Keys == dates.Keys
            && (forall k :: 0 <= k < |ids| ==> r[ids[k]] == times[k])
            && (forall q :: q in dates && q !in ids ==> r[q] == dates[q])
  {
    AssignValues(dates, ids, times);
  }

  /** The events part of a rescheduling: one event per post is kept, and
      each post of `ids` has its time as its only event. */
  lemma RescheduledEvents(events: seq<CronEvent>, ids: seq<PostId>, times: seq<int>)
    requires OneEventPerPost(events) && Distinct(ids) && |times| == |ids|
    ensures var r := Cancel(events, Elements(ids)) + EventsFor(ids, times);
            && OneEventPerPost(r)
            && (forall k :: 0 <= k < |ids| ==> NextScheduled(r, ids[k]) == Some(times[k]))
            && (forall e :: e in events && e.post !in ids ==> e in r)
  {
    var r := Cancel(events, Elements(ids)) + EventsFor(ids, times);
    BlockKeepsOne(events, ids, times);
    forall k | 0 <= k < |ids|
      ensures NextScheduled(r, ids[k]) == Some(times[k])
    {
      assert EventsFor(ids, times)[k] == CronEvent(ids[k], times[k]);
      NextScheduledUnique(r, ids[k], times[k]);
    }
  }

  /** After `pause_queue` no queued post has a pending event, the events
      of other posts are kept, and the queue stays well formed. */
  lemma PauseClearsEvents(s: SiteState)
    requires WellFormed(s)
    ensures var r := AfterPause(s);
            && WellFormed(r)
            && (forall x :: x in s.order ==> NextScheduled(r.events, x).None?)
            && (forall e :: e in s.events && e.post !in s.order ==> e in r.events)
  {
    CancelKeepsOne(s.events, Elements(s.order));
  }

  /** Publishing takes the post out of the queue and keeps the rest of it
      well formed; dates and events are left as they were. */
  lemma PublishKeepsQueue(s: SiteState, paused: bool, p: PostId)
    requires WellFormed(s)
    ensures var r := AfterPublish(s, paused, p);
            && WellFormed(r)
            && (!paused && p in s.statuses ==> r.statuses[p] == PUBLISH && p !in r.order)
            && r.dates == s.dates && r.events == s.events
            && (forall x :: x in r.order ==> x in s.order)
  {
    if !paused && p in s.statuses {
      WithoutSorted(s.order, p, s.dates);
    }
  }

  /** Removing an event keeps at most one event per post. */
  lemma UnscheduleKeepsOne(events: seq<CronEvent>, p: PostId)
    requires OneEventPerPost(events)
    ensures OneEventPerPost(Unschedule(events, p))
    ensures p !in Posts(Unschedule(events, p))
  {
    UnscheduleCancels(events, p);
    CancelKeepsOne(events, {p});
  }

  /** A post entering the queue ends up last in it; a post leaving it for
      anything but publication has no pending event left and the rest of
      the queue is rescheduled; every change keeps the queue well formed. */
  lemma StatusChangeKeepsQueue(s: SiteState, w: Window, paused: bool,
                               newStatus: string, oldStatus: string, p: PostId, now: int)
    requires w.Valid() && WellFormed(s) && p in s.statuses && s.statuses[p] == newStatus
    ensures var r := AfterStatusChange(s, w, paused, newStatus, oldStatus, p, now);
            && WellFormed(r)
            && (newStatus == QUEUED && oldStatus != QUEUED ==> r.order != [] && r.order[|r.order| - 1] == p)
            && (oldStatus == QUEUED && newStatus != QUEUED && newStatus != PUBLISH ==>
                  p !in r.order && NextScheduled(r.events, p).None?)
  {
    if newStatus == QUEUED && oldStatus != QUEUED {
      QueuePostKeepsQueue(s, w, paused, p, now);
    } else if oldStatus == QUEUED && newStatus != QUEUED && newStatus != PUBLISH {
      var s' := s.(events := Unschedule(s.events, p));
      UnscheduleKeepsOne(s.events, p);
      assert WellFormed(s');
      assert IsPermutation(s.order, s.order);
      RecalculateKeepsQueue(s', w, paused, s.order, now);
      assert p !in s.order;
      if !paused {
        var times := Schedule(w, now, |s.order|);
        var c := Cancel(s'.events, Elements(s.order));
        EventsForPosts(s.order, times);
        PostsAppend(c, EventsFor(s.order, times));
      }
    }
  }

  /** The manager, built from the settings the window comes from. The
      site is the WordPress state it reads and writes. Its methods read the
      paused flag as `settings.paused`, the entry under the key the
      settings carry, and time posts with the corrected `NextPublishTime`. */
  class Manager {
    const settings: Settings
    const window: Window
    const site: Site

    ghost predicate Valid() {
      WindowOf(settings) == Some(window) && window.Valid()
    }

    constructor(settings: Settings, site: Site)
      requires Schedulable(settings)
      ensures Valid() && this.settings == settings && this.site == site
    {
      this.settings := settings;
      this.window := WindowOf(settings).value;
      this.site := site;
    }

    /** `remove_scheduled_event`: unschedule the event found for `p`. */
    method RemoveScheduledEvent(p: PostId)
      modifies site
      ensures site.State() == old(site.State()).(events := Unschedule(old(site.events), p))
    {
      var timestamp := NextScheduled(site.events, p);
      if timestamp.Some? {
        site.events := Unschedule(site.events, p);
      }
    }

    /** `schedule_queued_post`: add an event only when `p` has none. */
    method ScheduleQueuedPost(p: PostId, t: int)
      modifies site
      ensures site.State() == old(site.State()).(events := ScheduleOnce(old(site.events), p, t))
    {
      if NextScheduled(site.events, p).None? {
        site.events := site.events + [CronEvent(p, t)];
      }
    }

    /** `update_scheduled_event`: remove, then schedule. */
    method UpdateScheduledEvent(p: PostId, t: int)
      modifies site
      ensures site.State() == old(site.State()).(events := Reschedule(old(site.events), p, t))
    {
      RemoveScheduledEvent(p);
      ScheduleQueuedPost(p, t);
    }

    /** `queue_post(p)` for a post whose status is already `queued`. */
    method QueuePost(p: PostId, now: int)
      requires Valid() && site.Valid() && p in site.order
      modifies site
      ensures site.State() == AfterQueuePost(old(site.State()), window, settings.paused, p, now)
      ensures site.Valid()
    {
      ghost var s0 := site.State();
      var t := QueueTime(site.State(), window, p, now);
      site.order := MoveToEnd(site.order, p);
      site.dates := site.dates[p := t];
      if !settings.paused {
        ScheduleQueuedPost(p, t);
      }
      assert site.State() == Queued(s0, settings.paused, p, t);
      assert WellFormed(Queued(s0, settings.paused, p, t)) by {
        QueueTimeBounds(s0, window, p, now);
        QueuedKeepsQueue(s0, settings.paused, p, t);
      }
    }

    /** `recalculate_publish_times(newOrder)`: the queued posts sorted by
        the position of their keys, then given their times in that order.
        The sent posts take the places the sent posts held, in the order
        sent, and every post the order does not mention keeps its place
        (`ReorderPlaces`); see `Usort` for how the source differs. */
    method Recalculate(newOrder: seq<string>, now: int) returns (updated: seq<UpdatedPost>)
      requires Valid() && site.Valid()
      modifies site
      ensures var ids := Reorder(StripAll(newOrder), old(site.order));
              && IsPermutation(old(site.order), ids)
              && Reported(updated, ids, Schedule(window, now, |ids|))
              && site.State() == AfterRecalculate(old(site.State()), window, settings.paused, ids, now)
      ensures site.Valid()
    {
      var keys := StripAll(newOrder);
      var ids := Reorder(keys, site.order);
      SortsPermute(keys, site.order);
      updated := RepublishInOrder(ids, now);
    }

    /** The loop of `recalculate_publish_times`: each post of `ids` is timed
        one interval or more after the one before it, rescheduled and
        redated unless the queue is paused, and reported. */
    method RepublishInOrder(ids: seq<PostId>, now: int) returns (updated: seq<UpdatedPost>)
      requires Valid() && site.Valid() && IsPermutation(site.order, ids)
      modifies site
      ensures Reported(updated, ids, Schedule(window, now, |ids|))
      ensures site.State() == AfterRecalculate(old(site.State()), window, settings.paused, ids, now)
      ensures site.Valid()
    {
      ghost var s0 := site.State();
      var times: seq<int> := [];
      updated := [];
      var i := 0;
      PartialStart(s0, ids);
      while i < |ids|
        invariant i <= |ids|
        invariant times == Schedule(window, now, i)
        invariant Reported(updated, ids[..i], times)
        invariant site.State() == if settings.paused then s0 else Partial(s0, ids, times)
      {
        var t := NextPublishTime(window, now, i, Last(times));
        RepublishOne(s0, ids, i, times, t);
        ReportedOneMore(updated, ids, times, i, t);
        assert Schedule(window, now, i + 1) == times + [t] by {
          assert Schedule(window, now, i) == times;
        }
        updated := updated + [UpdatedPost(ids[i], t)];
        times := times + [t];
        i := i + 1;
      }
      WholePrefix(ids);
      if !settings.paused {
        site.order := ids;
        PartialDone(s0, ids, times);
      }
      assert WellFormed(AfterRecalculate(s0, window, settings.paused, ids, now)) by {
        RecalculateKeepsQueue(s0, window, settings.paused, ids, now);
      }
    }

    /** The body of that loop for the post at position `i`: unless paused,
        its event is moved to `t` and its date set to `t`. */
    method RepublishOne(ghost s0: SiteState, ids: seq<PostId>, i: nat, ghost times: seq<int>, t: int)
      requires OneEventPerPost(s0.events) && Distinct(ids) && i == |times| < |ids|
      requires site.State() == if settings.paused then s0 else Partial(s0, ids, times)
      modifies site
      ensures site.State() == if settings.paused then s0 else Partial(s0, ids, times + [t])
    {
      if !settings.paused {
        PartialStep(s0, ids, times, t);
        UpdateScheduledEvent(ids[i], t);
      }
      if !settings.paused {
        site.dates := site.dates[ids[i] := t];
      }
    }

    /** `shuffle_queued_posts`, with the random permutation as a parameter:
        recalculate in the shuffled order, then reschedule every post again
        at its reported time, which leaves the cron table as the
        recalculation left it. */
    method ShuffleQueuedPosts(shuffled: seq<PostId>, now: int) returns (updated: seq<UpdatedPost>)
      requires Valid() && site.Valid() && IsPermutation(site.order, shuffled)
      modifies site
      ensures Reported(updated, shuffled, Schedule(window, now, |shuffled|))
      ensures site.State() == AfterRecalculate(old(site.State()), window, settings.paused, shuffled, now)
      ensures site.Valid()
    {
      var keys := Decimals(shuffled);
      RequestedOrderKept(shuffled, site.order);
      ghost var s0 := site.State();
      updated := Recalculate(keys, now);
      if !settings.paused {
        ghost var times := Schedule(window, now, |shuffled|);
        ghost var rest := Cancel(s0.events, Elements(shuffled));
        ghost var target := AfterRecalculate(s0, window, false, shuffled, now);
        assert forall x :: x in Posts(rest) ==> x !in shuffled;
        CancelKeepsOne(s0.events, Elements(shuffled));
        RotationEnds(rest, shuffled, times);
        var i := 0;
        while i < |updated|
          invariant i <= |updated|
          invariant site.State() == target.(events := rest + EventsFor(shuffled[i..], times[i..])
                                                      + EventsFor(shuffled[..i], times[..i]))
        {
          RotateStep(rest, shuffled, times, i);
          UpdateScheduledEvent(updated[i].id, updated[i].newPublishTime);
          i := i + 1;
        }
      }
    }

    /** `pause_queue`: remove the event of every queued post. */
    method PauseQueue()
      requires site.Valid()
      modifies site
      ensures site.State() == AfterPause(old(site.State()))
      ensures site.Valid()
    {
      ghost var s0 := site.State();
      var queue := site.order;
      var i := 0;
      CancelNothing(s0.events, Elements(queue[..0]));
      while i < |queue|
        invariant i <= |queue|
        invariant site.State() == s0.(events := Cancel(s0.events, Elements(queue[..i])))
      {
        CancelKeepsOne(s0.events, Elements(queue[..i]));
        UnscheduleCancels(site.events, queue[i]);
        CancelOneMore(s0.events, queue, i);
        RemoveScheduledEvent(queue[i]);
        i := i + 1;
      }
      assert queue[..|queue|] == queue;
      PauseClearsEvents(s0);
    }

    /** `recalculate_publish_times(array_column(get_current_order(), 'ID'))`:
        recalculate the queue in its current order. */
    method RecalculateCurrentOrder(now: int) returns (updated: seq<UpdatedPost>)
      requires Valid() && site.Valid()
      modifies site
      ensures Reported(updated, old(site.order), Schedule(window, now, |old(site.order)|))
      ensures site.State() == AfterRecalculate(old(site.State()), window, settings.paused, old(site.order), now)
      ensures site.Valid()
    {
      var queue := site.order;
      RequestedOrderKept(queue, queue);
      updated := Recalculate(Decimals(queue), now);
    }

    /** `resume_queue`: recalculate the queue in its current order. */
    method ResumeQueue(now: int)
      requires Valid() && site.Valid()
      modifies site
      ensures site.State() == AfterRecalculate(old(site.State()), window, settings.paused, old(site.order), now)
      ensures site.Valid()
    {
      var _ := RecalculateCurrentOrder(now);
    }

    /** `handle_post_status_change`, run by the `transition_post_status`
        hook after the new status of `p` has been stored. */
    method HandlePostStatusChange(newStatus: string, oldStatus: string, p: PostId, now: int)
      requires Valid() && site.Valid() && p in site.statuses && site.statuses[p] == newStatus
      modifies site
      ensures site.State()
              == AfterStatusChange(old(site.State()), window, settings.paused, newStatus, oldStatus, p, now)
      ensures site.Valid()
    {
      ghost var s0 := site.State();
      StatusChangeKeepsQueue(s0, window, settings.paused, newStatus, oldStatus, p, now);
      if newStatus == QUEUED && oldStatus != QUEUED {
        QueuePost(p, now);
      } else if oldStatus == QUEUED && newStatus != QUEUED && newStatus != PUBLISH {
        RemoveScheduledEvent(p);
        UnscheduleKeepsOne(s0.events, p);
        ResumeQueue(now);
      }
    }

    /** `publish_post_now`, the `publish_queued_post` event handler. */
    method PublishPostNow(p: PostId)
      requires site.Valid()
      modifies site
      ensures site.State() == AfterPublish(old(site.State()), settings.paused, p)
      ensures site.Valid()
    {
      ghost var s0 := site.State();
      if settings.paused {
        return;
      }
      if p in site.statuses {
        site.statuses := site.statuses[p := PUBLISH];
        site.order := Without(site.order, p);
      }
      PublishKeepsQueue(s0, settings.paused, p);
    }
  }
}
