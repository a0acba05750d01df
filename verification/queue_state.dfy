/**
 * The WordPress state the queue manager reads and writes: post statuses,
 * stored post dates, the queue listing (`get_current_order`: the queued
 * posts, date ascending), the cron table of one-shot `publish_queued_post`
 * events, and the plugin's stored options. The value-level operations on
 * the cron table and the date map are functions here; `Site` holds the
 * state the manager's methods update in place.
 */
module QueueState {
  import opened Wrappers
  import opened PostIds
  import opened Settings

  const QUEUED: string := "queued"
  const PUBLISH: string := "publish"

  /** A `publish_queued_post` event for one post. */
  datatype CronEvent = CronEvent(post: PostId, time: int)

  function Posts(events: seq<CronEvent>): (r: seq<PostId>)
    ensures |r| == |events|
    ensures forall i {:trigger r[i]} :: 0 <= i < |events| ==> r[i] == events[i].post
  {
    if events == [] then [] else [events[0].post] + Posts(events[1..])
  }

  /** No post has two pending events. */
  predicate OneEventPerPost(events: seq<CronEvent>) {
    Distinct(Posts(events))
  }

  /** `wp_next_scheduled('publish_queued_post', [p])`: the time of the
      event pending for `p`, if any. */
  function NextScheduled(events: seq<CronEvent>, p: PostId): (r: Option<int>)
    ensures r.None? <==> p !in Posts(events)
    ensures r.Some? ==> CronEvent(p, r.value) in events
  {
    if events == [] then None
    else if events[0].post == p then Some(events[0].time)
    else NextScheduled(events[1..], p)
  }

  /** `remove_scheduled_event`: the event found for `p` is unscheduled;
      nothing happens when there is none. */
  function Unschedule(events: seq<CronEvent>, p: PostId): (r: seq<CronEvent>)
    ensures p !in Posts(events) ==> r == events
  {
    if events == [] then []
    else if events[0].post == p then events[1..]
    else [events[0]] + Unschedule(events[1..], p)
  }

  /** `schedule_queued_post`: an event at `t` is added only when `p` has
      none yet. */
  function ScheduleOnce(events: seq<CronEvent>, p: PostId, t: int): (r: seq<CronEvent>)
    ensures OneEventPerPost(events) ==> OneEventPerPost(r)
    ensures NextScheduled(r, p).Some?
    ensures NextScheduled(events, p).Some? ==> r == events
  {
    if NextScheduled(events, p).Some? then events
    else
      var r := events + [CronEvent(p, t)];
      assert Posts(r) == Posts(events) + [p];
      r
  }

  /** `update_scheduled_event`: remove, then schedule. */
  function Reschedule(events: seq<CronEvent>, p: PostId, t: int): seq<CronEvent>
  {
    ScheduleOnce(Unschedule(events, p), p, t)
  }

  /** The events of posts outside `s`, in their order. */
  function Cancel(events: seq<CronEvent>, s: set<PostId>): (r: seq<CronEvent>)
    ensures forall e :: e in r <==> e in events && e.post !in s
    ensures forall x :: x in Posts(r) ==> x in Posts(events) && x !in s
  {
    if events == [] then []
    else
      var rest := Cancel(events[1..], s);
      if events[0].post in s then rest
      else
        assert Posts([events[0]] + rest) == [events[0].post] + Posts(rest);
        [events[0]] + rest
  }

  /** One event per post, at the given times, in the given order. */
  function EventsFor(ids: seq<PostId>, times: seq<int>): (r: seq<CronEvent>)
    requires |ids| == |times|
    ensures |r| == |ids|
    ensures forall k {:trigger r[k]} :: 0 <= k < |ids| ==> r[k] == CronEvent(ids[k], times[k])
  {
    if ids == [] then [] else [CronEvent(ids[0], times[0])] + EventsFor(ids[1..], times[1..])
  }

  lemma EventsForPosts(ids: seq<PostId>, times: seq<int>)
    requires |ids| == |times|
    ensures Posts(EventsFor(ids, times)) == ids
  {
    var r := Posts(EventsFor(ids, times));
    assert forall k :: 0 <= k < |ids| ==> r[k] == ids[k];
  }

  /** Unscheduling a post's only event cancels it and nothing else. */
  lemma {:induction false} UnscheduleCancels(events: seq<CronEvent>, p: PostId)
    requires OneEventPerPost(events)
    ensures Unschedule(events, p) == Cancel(events, {p})
  {
    if events != [] {
      PostsCons(events[0], events[1..]);
      assert events == [events[0]] + events[1..];
      DistinctCons(events[0].post, Posts(events[1..]));
      if events[0].post == p {
        CancelNothing(events[1..], {p});
      } else {
        UnscheduleCancels(events[1..], p);
      }
    }
  }

  /** Cancelling posts that have no event changes nothing. */
  lemma {:induction false} CancelNothing(events: seq<CronEvent>, s: set<PostId>)
    requires forall x :: x in Posts(events) ==> x !in s
    ensures Cancel(events, s) == events
  {
    if events != [] {
      assert events[0].post in Posts(events);
      assert Posts(events[1..]) == Posts(events)[1..];
      CancelNothing(events[1..], s);
    }
  }

  lemma {:induction false} CancelAppend(a: seq<CronEvent>, b: seq<CronEvent>, s: set<PostId>)
    ensures Cancel(a + b, s) == Cancel(a, s) + Cancel(b, s)
  {
    if a == [] {
      assert a + b == b;
    } else {
      assert (a + b)[0] == a[0];
      assert (a + b)[1..] == a[1..] + b;
      CancelAppend(a[1..], b, s);
      var head := if a[0].post in s then [] else [a[0]];
      assert Cancel(a + b, s) == head + Cancel(a[1..] + b, s);
      assert Cancel(a, s) == head + Cancel(a[1..], s);
      AppendAssoc(head, Cancel(a[1..], s), Cancel(b, s));
    }
  }

  lemma {:induction false} CancelTwice(events: seq<CronEvent>, s: set<PostId>, t: set<PostId>)
    ensures Cancel(Cancel(events, s), t) == Cancel(events, s + t)
  {
    if events != [] {
      CancelTwice(events[1..], s, t);
    }
  }

  /** Cancelling keeps at most one event per post. */
  lemma {:induction false} CancelKeepsOne(events: seq<CronEvent>, s: set<PostId>)
    requires OneEventPerPost(events)
    ensures OneEventPerPost(Cancel(events, s))
  {
    if events != [] {
      var e := events[0];
      PostsCons(e, events[1..]);
      assert events == [e] + events[1..];
      DistinctCons(e.post, Posts(events[1..]));
      CancelKeepsOne(events[1..], s);
      var rest := Cancel(events[1..], s);
      if e.post !in s {
        PostsCons(e, rest);
        DistinctCons(e.post, Posts(rest));
      }
    }
  }

  lemma PostsCons(e: CronEvent, rest: seq<CronEvent>)
    ensures Posts([e] + rest) == [e.post] + Posts(rest)
  {
    PostsAppend([e], rest);
  }



  lemma PostsAppend(a: seq<CronEvent>, b: seq<CronEvent>)
    ensures Posts(a + b) == Posts(a) + Posts(b)
  {
    var l, r := Posts(a + b), Posts(a) + Posts(b);
    assert |l| == |r|;
    forall i | 0 <= i < |l|
      ensures l[i] == r[i]
    {
      if i < |a| {
        assert (a + b)[i] == a[i];
      } else {
        assert (a + b)[i] == b[i - |a|];
      }
    }
  }

  lemma OneEventAppend(a: seq<CronEvent>, b: seq<CronEvent>)
    requires OneEventPerPost(a) && OneEventPerPost(b)
    requires forall x :: x in Posts(a) ==> x !in Posts(b)
    ensures OneEventPerPost(a + b)
  {
    PostsAppend(a, b);
    DistinctAppend(Posts(a), Posts(b));
  }

  /** `update_scheduled_event` leaves exactly one event for the post, at
      the new time, after the events of the other posts. */
  lemma RescheduleShape(events: seq<CronEvent>, p: PostId, t: int)
    requires OneEventPerPost(events)
    ensures Reschedule(events, p, t) == Cancel(events, {p}) + [CronEvent(p, t)]
    ensures OneEventPerPost(Reschedule(events, p, t))
    ensures NextScheduled(Reschedule(events, p, t), p) == Some(t)
  {
    UnscheduleCancels(events, p);
    var c := Cancel(events, {p});
    assert p !in Posts(c);
    CancelKeepsOne(events, {p});
    NextAtEnd(c, p, t);
  }

  lemma {:induction false} NextAtEnd(events: seq<CronEvent>, p: PostId, t: int)
    requires p !in Posts(events)
    ensures NextScheduled(events + [CronEvent(p, t)], p) == Some(t)
  {
    if events != [] {
      assert events[0].post in Posts(events);
      assert Posts(events[1..]) == Posts(events)[1..];
      assert (events + [CronEvent(p, t)])[1..] == events[1..] + [CronEvent(p, t)];
      NextAtEnd(events[1..], p, t);
    }
  }

  /** One step of the recalculation loop: rescheduling the next post of the
      new order extends the block of rescheduled events. */
  lemma RescheduleStep(events: seq<CronEvent>, ids: seq<PostId>, times: seq<int>, t: int)
    requires OneEventPerPost(events) && Distinct(ids)
    requires |times| < |ids|
    ensures var i := |times|;
            var before := Cancel(events, Elements(ids[..i])) + EventsFor(ids[..i], times);
            OneEventPerPost(before)
            && Reschedule(before, ids[i], t)
               == Cancel(events, Elements(ids[..i + 1])) + EventsFor(ids[..i + 1], times + [t])
  {
    var i := |times|;
    var p := ids[i];
    var s := Elements(ids[..i]);
    var c := Cancel(events, s);
    var f := EventsFor(ids[..i], times);
    var ev := CronEvent(p, t);
    assert OneEventPerPost(c) by {
      CancelKeepsOne(events, s);
    }
    EventsForPosts(ids[..i], times);
    assert OneEventPerPost(f) by {
      DistinctSlice(ids, 0, i);
      assert ids[0..i] == ids[..i];
    }
    assert p !in Posts(f) by {
      assert forall k :: 0 <= k < i ==> ids[..i][k] == ids[k] && ids[k] != p;
    }
    assert forall x :: x in Posts(c) ==> x !in Posts(f);
    OneEventAppend(c, f);
    RescheduleShape(c + f, p, t);
    assert Reschedule(c + f, p, t) == Cancel(c, {p}) + f + [ev] by {
      CancelAppend(c, f, {p});
      CancelNothing(f, {p});
    }
    var c' := Cancel(events, Elements(ids[..i + 1]));
    var f' := EventsFor(ids[..i + 1], times + [t]);
    assert Cancel(c, {p}) == c' by {
      CancelOneMore(events, ids, i);
    }
    assert f' == f + [ev] by {
      EventsForOneMore(ids, times, t);
    }
    AppendAssoc(Cancel(c, {p}), f, [ev]);
  }

  lemma AppendAssoc(a: seq<CronEvent>, b: seq<CronEvent>, c: seq<CronEvent>)
    ensures a + b + c == a + (b + c)
  {
  }

  lemma CancelOneMore(events: seq<CronEvent>, ids: seq<PostId>, i: nat)
    requires i < |ids|
    ensures Cancel(Cancel(events, Elements(ids[..i])), {ids[i]}) == Cancel(events, Elements(ids[..i + 1]))
  {
    CancelTwice(events, Elements(ids[..i]), {ids[i]});
    SliceSnoc(ids, i);
    ElementsSnoc(ids[..i], ids[i]);
  }

  lemma EventsForOneMore(ids: seq<PostId>, times: seq<int>, t: int)
    requires |times| < |ids|
    ensures var i := |times|;
            EventsFor(ids[..i + 1], times + [t]) == EventsFor(ids[..i], times) + [CronEvent(ids[i], t)]
  {
    SliceSnoc(ids, |times|);
    EventsForSnoc(ids[..|times|], times, ids[|times|], t);
  }

  /** The prefix as long as the sequence is the sequence. */
  lemma WholePrefix<T>(s: seq<T>)
    ensures s[..|s|] == s
  {
  }

  /** A prefix one longer is the prefix and the next element. */
  lemma SliceSnoc<T>(s: seq<T>, i: nat)
    requires i < |s|
    ensures s[..i + 1] == s[..i] + [s[i]]
  {
  }

  lemma EventsForSnoc(ids: seq<PostId>, times: seq<int>, p: PostId, t: int)
    requires |ids| == |times|
    ensures EventsFor(ids + [p], times + [t]) == EventsFor(ids, times) + [CronEvent(p, t)]
  {
    var a, b := EventsFor(ids + [p], times + [t]), EventsFor(ids, times) + [CronEvent(p, t)];
    forall k | 0 <= k < |a|
      ensures a[k] == b[k]
    {
      if k < |ids| {
        assert (ids + [p])[k] == ids[k] && (times + [t])[k] == times[k];
      }
    }
  }

  lemma ElementsSnoc(s: seq<PostId>, x: PostId)
    ensures Elements(s + [x]) == Elements(s) + {x}
  {
    assert forall y :: y in s + [x] <==> y in s || y == x;
  }

  lemma DistinctSlice(s: seq<PostId>, lo: nat, hi: nat)
    requires Distinct(s) && lo <= hi <= |s|
    ensures Distinct(s[lo..hi])
  {
    var r := s[lo..hi];
    forall i, j | 0 <= i < j < |r|
      ensures r[i] != r[j]
    {
      assert r[i] == s[lo + i] && r[j] == s[lo + j];
    }
  }

  /** The cron table after rescheduling a block of distinct posts keeps one
      event per post. */
  lemma BlockKeepsOne(events: seq<CronEvent>, ids: seq<PostId>, times: seq<int>)
    requires OneEventPerPost(events) && Distinct(ids) && |ids| == |times|
    ensures OneEventPerPost(Cancel(events, Elements(ids)) + EventsFor(ids, times))
  {
    CancelKeepsOne(events, Elements(ids));
    OneEventAppend(Cancel(events, Elements(ids)), EventsFor(ids, times));
  }

  /** Rescheduling the posts of the block again, in the same order and at
      the same times, gives back the same table: the step moves the first
      event of the block to its end. */
  lemma RotateStep(c: seq<CronEvent>, ids: seq<PostId>, times: seq<int>, i: nat)
    requires |ids| == |times| && i < |ids| && Distinct(ids)
    requires OneEventPerPost(c) && forall x :: x in Posts(c) ==> x !in ids
    ensures var before := c + EventsFor(ids[i..], times[i..]) + EventsFor(ids[..i], times[..i]);
            OneEventPerPost(before)
            && Reschedule(before, ids[i], times[i])
               == c + EventsFor(ids[i + 1..], times[i + 1..]) + EventsFor(ids[..i + 1], times[..i + 1])
  {
    var p, t := ids[i], times[i];
    var ev := CronEvent(p, t);
    var tail, head := EventsFor(ids[i + 1..], times[i + 1..]), EventsFor(ids[..i], times[..i]);
    var front, rotated := c + [ev], tail + head;
    RotateSplit(c, ids, times, i);
    RotateKeepsOne(c, ids, times, i);
    RescheduleShape(front + rotated, p, t);
    RotateCancel(c, ids, times, i);
    AppendAssoc(c, tail, head);
    AppendAssoc(c + tail, head, [ev]);
  }

  lemma RotateSplit(c: seq<CronEvent>, ids: seq<PostId>, times: seq<int>, i: nat)
    requires |ids| == |times| && i < |ids|
    ensures var ev := CronEvent(ids[i], times[i]);
            var tail, head := EventsFor(ids[i + 1..], times[i + 1..]), EventsFor(ids[..i], times[..i]);
            && c + EventsFor(ids[i..], times[i..]) + head == (c + [ev]) + (tail + head)
            && EventsFor(ids[..i + 1], times[..i + 1]) == head + [ev]
  {
    var ev := CronEvent(ids[i], times[i]);
    var tail, head := EventsFor(ids[i + 1..], times[i + 1..]), EventsFor(ids[..i], times[..i]);
    EventsForCons(ids, times, i);
    AppendAssoc(c, [ev], tail);
    AppendAssoc(c + [ev], tail, head);
    EventsForOneMore(ids, times[..i], times[i]);
    SliceSnoc(times, i);
  }

  /** Before the first and after the last rotation step the events are
      `c` followed by the block in order. */
  lemma RotationEnds(c: seq<CronEvent>, ids: seq<PostId>, times: seq<int>)
    requires |ids| == |times|
    ensures c + EventsFor(ids[0..], times[0..]) + EventsFor(ids[..0], times[..0]) == c + EventsFor(ids, times)
    ensures c + EventsFor(ids[|ids|..], times[|ids|..]) + EventsFor(ids[..|ids|], times[..|ids|])
            == c + EventsFor(ids, times)
  {
    assert ids[0..] == ids && times[0..] == times;
    assert ids[..|ids|] == ids && times[..|ids|] == times;
    assert EventsFor(ids[..0], times[..0]) == [];
    assert EventsFor(ids[|ids|..], times[|ids|..]) == [];
    assert c + EventsFor(ids, times) + [] == c + EventsFor(ids, times);
    assert c + [] + EventsFor(ids, times) == c + EventsFor(ids, times);
  }

  lemma RotateKeepsOne(c: seq<CronEvent>, ids: seq<PostId>, times: seq<int>, i: nat)
    requires |ids| == |times| && i < |ids| && Distinct(ids)
    requires OneEventPerPost(c) && forall x :: x in Posts(c) ==> x !in ids
    ensures var ev := CronEvent(ids[i], times[i]);
            OneEventPerPost((c + [ev]) + (EventsFor(ids[i + 1..], times[i + 1..]) + EventsFor(ids[..i], times[..i])))
  {
    var p := ids[i];
    var ev := CronEvent(p, times[i]);
    var rotated := EventsFor(ids[i + 1..], times[i + 1..]) + EventsFor(ids[..i], times[..i]);
    var front := c + [ev];
    RotatedBlock(ids, times, i);
    assert p !in Posts(c) by {
      assert p in ids;
    }
    assert Posts([ev]) == [p];
    OneEventAppend(c, [ev]);
    PostsAppend(c, [ev]);
    forall x | x in Posts(front)
      ensures x !in Posts(rotated)
    {
      assert x == p || x in Posts(c);
    }
    OneEventAppend(front, rotated);
  }

  lemma RotateCancel(c: seq<CronEvent>, ids: seq<PostId>, times: seq<int>, i: nat)
    requires |ids| == |times| && i < |ids| && Distinct(ids)
    requires forall x :: x in Posts(c) ==> x !in ids
    ensures var ev := CronEvent(ids[i], times[i]);
            var rotated := EventsFor(ids[i + 1..], times[i + 1..]) + EventsFor(ids[..i], times[..i]);
            Cancel((c + [ev]) + rotated, {ids[i]}) == c + rotated
  {
    var p := ids[i];
    var ev := CronEvent(p, times[i]);
    var rotated := EventsFor(ids[i + 1..], times[i + 1..]) + EventsFor(ids[..i], times[..i]);
    RotatedBlock(ids, times, i);
    assert p !in Posts(c) by {
      assert p in ids;
    }
    assert Cancel(c + [ev], {p}) == c by {
      CancelAppend(c, [ev], {p});
      CancelNothing(c, {p});
      assert Cancel([ev], {p}) == [];
      assert c + [] == c;
    }
    assert Cancel(rotated, {p}) == rotated by {
      CancelNothing(rotated, {p});
    }
    CancelAppend(c + [ev], rotated, {p});
  }



  /** The events of `ids[i+1..]` followed by those of `ids[..i]`: one per
      post, none for `ids[i]`, only for posts of `ids`. */
  lemma RotatedBlock(ids: seq<PostId>, times: seq<int>, i: nat)
    requires |ids| == |times| && i < |ids| && Distinct(ids)
    ensures var rotated := EventsFor(ids[i + 1..], times[i + 1..]) + EventsFor(ids[..i], times[..i]);
            && OneEventPerPost(rotated)
            && ids[i] !in Posts(rotated)
            && forall x :: x in Posts(rotated) ==> x in ids
  {
    var tail, head := EventsFor(ids[i + 1..], times[i + 1..]), EventsFor(ids[..i], times[..i]);
    DistinctSlice(ids, i + 1, |ids|);
    DistinctSlice(ids, 0, i);
    assert ids[i + 1..|ids|] == ids[i + 1..] && ids[0..i] == ids[..i];
    forall x | x in ids[i + 1..]
      ensures x !in ids[..i] && x != ids[i] && x in ids
    {
      var k :| 0 <= k < |ids[i + 1..]| && ids[i + 1..][k] == x;
      assert x == ids[i + 1 + k];
    }
    forall x | x in ids[..i]
      ensures x != ids[i] && x in ids
    {
      var k :| 0 <= k < i && ids[..i][k] == x;
      assert x == ids[k];
    }
    EventsForPosts(ids[i + 1..], times[i + 1..]);
    EventsForPosts(ids[..i], times[..i]);
    PostsAppend(tail, head);
    OneEventAppend(tail, head);
  }

  lemma EventsForCons(ids: seq<PostId>, times: seq<int>, i: nat)
    requires |ids| == |times| && i < |ids|
    ensures EventsFor(ids[i..], times[i..])
            == [CronEvent(ids[i], times[i])] + EventsFor(ids[i + 1..], times[i + 1..])
  {
    assert ids[i..][1..] == ids[i + 1..] && times[i..][1..] == times[i + 1..];
  }

  /** The stored dates after the posts `ids` were given `times`, one by one. */
  function Assign(dates: map<PostId, int>, ids: seq<PostId>, times: seq<int>): (r: map<PostId, int>)
    requires |ids| == |times|
    ensures r.Keys == dates.Keys + Elements(ids)
    ensures forall q {:trigger r[q]} :: q in dates && q !in ids ==> r[q] == dates[q]
  {
    if ids == [] then dates
    else
      var n := |ids| - 1;
      SliceSnoc(ids, n);
      WholePrefix(ids);
      ElementsSnoc(ids[..n], ids[n]);
      Assign(dates, ids[..n], times[..n])[ids[n] := times[n]]
  }

  lemma AssignOneMore(dates: map<PostId, int>, ids: seq<PostId>, times: seq<int>, t: int)
    requires |times| < |ids|
    ensures var i := |times|;
            Assign(dates, ids[..i + 1], times + [t]) == Assign(dates, ids[..i], times)[ids[i] := t]
  {
    var i := |times|;
    var block, ts := ids[..i + 1], times + [t];
    assert block[..i] == ids[..i] && block[i] == ids[i];
    assert ts[..i] == times && ts[i] == t;
    assert Assign(dates, block, ts) == Assign(dates, block[..i], ts[..i])[block[i] := ts[i]];
  }

  /** With distinct ids, each post ends up with its own time. */
  lemma {:induction false} AssignValues(dates: map<PostId, int>, ids: seq<PostId>, times: seq<int>)
    requires |ids| == |times| && Distinct(ids)
    ensures forall k :: 0 <= k < |ids| ==> Assign(dates, ids, times)[ids[k]] == times[k]
  {
    if ids != [] {
      var n := |ids| - 1;
      var init, initTimes := ids[..n], times[..n];
      DistinctPrefix(ids, n);
      AssignValues(dates, init, initTimes);
      var before := Assign(dates, init, initTimes);
      assert Assign(dates, ids, times) == before[ids[n] := times[n]] by {
        AssignOneMore(dates, ids, initTimes, times[n]);
        WholePrefix(ids);
        SliceSnoc(times, n);
        WholePrefix(times);
      }
      forall k | 0 <= k < n
        ensures Assign(dates, ids, times)[ids[k]] == times[k]
      {
        assert init[k] == ids[k] && initTimes[k] == times[k];
        assert ids[k] != ids[n];
      }
    }
  }

  lemma DistinctPrefix<T>(s: seq<T>, n: nat)
    requires n <= |s| && Distinct(s)
    ensures Distinct(s[..n])
  {
    forall i, j | 0 <= i < j < n ensures s[..n][i] != s[..n][j] {
      assert s[..n][i] == s[i] && s[..n][j] == s[j];
    }
  }

  /** Posts listed in increasing order of their stored dates. */
  ghost predicate SortedByDate(order: seq<PostId>, dates: map<PostId, int>) {
    && (forall x :: x in order ==> x in dates)
    && (forall i, j :: 0 <= i < j < |order| ==> dates[order[i]] <= dates[order[j]])
  }

  /** `order` without `p`, the others in their order (`unset` then
      `array_values`). */
  function Without(order: seq<PostId>, p: PostId): (r: seq<PostId>)
    ensures forall x :: x in r <==> x in order && x != p
    ensures Distinct(order) ==> Distinct(r)
    ensures |r| <= |order|
  {
    if order == [] then []
    else
      var rest := Without(order[1..], p);
      if order[0] == p then rest
      else
        assert order[0] !in order[1..] ==> order[0] !in rest;
        [order[0]] + rest
  }

  /** The queue with `p` moved to the end, as `queue_post` rebuilds it: when
      `p` is not already the last entry it is removed and appended. */
  function MoveToEnd(order: seq<PostId>, p: PostId): seq<PostId>
    requires order != []
  {
    if order[|order| - 1] != p then Without(order, p) + [p] else order
  }

  /** Moving a queued post to the end keeps every other post in its
      relative order, and puts the post last exactly once. */
  lemma MoveToEndShape(order: seq<PostId>, p: PostId)
    requires Distinct(order) && p in order
    ensures MoveToEnd(order, p) == Without(order, p) + [p]
    ensures IsPermutation(order, MoveToEnd(order, p))
  {
    if order[|order| - 1] == p {
      WithoutLast(order, p);
    }
    var r := Without(order, p) + [p];
    assert Distinct(r);
    DistinctSameLength(order, r);
  }

  lemma {:induction false} WithoutLast(order: seq<PostId>, p: PostId)
    requires Distinct(order) && order != [] && order[|order| - 1] == p
    ensures Without(order, p) == order[..|order| - 1]
  {
    if |order| > 1 {
      assert order[1..][|order| - 2] == p;
      WithoutLast(order[1..], p);
      assert order[1..][..|order| - 2] == order[1..|order| - 1];
    }
  }

  /** Removing a post keeps the listing sorted. */
  lemma {:induction false} WithoutSorted(order: seq<PostId>, p: PostId, dates: map<PostId, int>)
    requires SortedByDate(order, dates)
    ensures SortedByDate(Without(order, p), dates)
  {
    if order != [] {
      var rest := Without(order[1..], p);
      assert SortedByDate(order[1..], dates);
      WithoutSorted(order[1..], p, dates);
      if order[0] != p {
        var r := [order[0]] + rest;
        forall i, j | 0 <= i < j < |r|
          ensures dates[r[i]] <= dates[r[j]]
        {
          if i == 0 {
            assert r[j] in order[1..];
          }
        }
      }
    }
  }

  /** The post `queue_post` anchors on in a queue of `n` posts: the first
      when there are two, the second-to-last when there are more, none
      otherwise. */
  function QueueAnchor(order: seq<PostId>, dates: map<PostId, int>): (a: Option<int>)
    requires forall x :: x in order ==> x in dates
    ensures a.Some? <==> |order| >= 2
    ensures a.Some? ==> a.value == dates[order[|order| - 2]]
  {
    if |order| == 2 then Some(dates[order[0]])
    else if |order| > 1 then Some(dates[order[|order| - 2]])
    else None
  }

  /** A snapshot of the site: post statuses and dates, the queue listing,
      the cron table and the plugin's options. */
  datatype SiteState = SiteState(
    statuses: map<PostId, string>,
    dates: map<PostId, int>,
    order: seq<PostId>,
    events: seq<CronEvent>,
    options: StoredOptions)

  /** The listing holds exactly the queued posts, once each, sorted by
      date; every post has a date; no post has two pending events. */
  ghost predicate WellFormed(s: SiteState) {
    && Distinct(s.order)
    && (forall p :: p in s.order <==> p in s.statuses && s.statuses[p] == QUEUED)
    && s.statuses.Keys == s.dates.Keys
    && SortedByDate(s.order, s.dates)
    && OneEventPerPost(s.events)
  }

  /** The WordPress site the plugin runs in, updated in place. */
  class Site {
    var statuses: map<PostId, string>
    var dates: map<PostId, int>
    /** `get_current_order()`: the queued posts by ascending date. */
    var order: seq<PostId>
    var events: seq<CronEvent>
    var options: StoredOptions

    function State(): SiteState
      reads this
    {
      SiteState(statuses, dates, order, events, options)
    }

    ghost predicate Valid()
      reads this
    {
      WellFormed(State())
    }

    constructor(initial: SiteState)
      ensures State() == initial
    {
      statuses := initial.statuses;
      dates := initial.dates;
      order := initial.order;
      events := initial.events;
      options := initial.options;
    }
  }
}
