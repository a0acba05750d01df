/**
 * The plugin's REST endpoints (`REST_API`): the checks WordPress runs on
 * the parameters before a callback, the settings update, the settings read
 * and the recalculation endpoint.
 */
module RestApi {
  import opened Wrappers
  import opened Scheduler
  import opened Settings
  import opened PostIds
  import opened PhpValues
  import opened QueueState
  import opened QueueManager

  /** `publish_times`: numeric and between 0 and 50. */
  predicate PublishTimesAccepted(v: PhpValue) {
    IsNumeric(v) && 0.0 <= NumberOf(v) <= 50.0
  }

  /** `start_time` and `end_time`: a string listed in `valid_times`. */
  predicate TimeAccepted(v: PhpValue) {
    v.PStr? && v.s in VALID_TIMES
  }

  /** `post_queue_paused`: a boolean. */
  predicate PausedAccepted(v: PhpValue) {
    v.PBool?
  }

  /** Every element of an `order` array is numeric. */
  predicate AllNumeric(elems: seq<PhpValue>) {
    forall i :: 0 <= i < |elems| ==> IsNumeric(elems[i])
  }

  /** The `order` check: anything but an array is refused, and an array is
      refused at its first element that is not numeric. */
  method OrderAccepted(param: PhpValue) returns (ok: bool)
    ensures ok <==> param.PArray? && AllNumeric(param.elems)
  {
    if !param.PArray? {
      return false;
    }
    var i := 0;
    while i < |param.elems|
      invariant i <= |param.elems|
      invariant forall k :: 0 <= k < i ==> IsNumeric(param.elems[k])
    {
      if !IsNumeric(param.elems[i]) {
        return false;
      }
      i := i + 1;
    }
    return true;
  }

  /** An integer count is accepted exactly from 0 to 50; -1 and 51 are
      refused. */
  lemma PublishTimesRange(n: int)
    ensures PublishTimesAccepted(PInt(n)) <==> 0 <= n <= 50
    ensures !PublishTimesAccepted(PInt(-1)) && !PublishTimesAccepted(PInt(51))
  {
  }

  /** A count sent as a decimal string is read as that number. */
  lemma PublishTimesDecimal(n: nat)
    ensures PublishTimesAccepted(PStr(Decimal(n))) <==> n <= 50
  {
    DecimalIsNumeric(n);
  }

  /** A time is accepted exactly when the calculator can read it as an hour
      of the day. */
  lemma TimeAcceptedReadable(v: PhpValue)
    ensures TimeAccepted(v) <==> v.PStr? && TimeOfLabel(v.s).Some?
  {
    if v.PStr? {
      LabelAccepted(v.s);
    }
  }

  /** Labels that are not listed are refused, whatever hour they seem to
      name; the default window's labels are accepted. */
  lemma TimeRefusals()
    ensures !TimeAccepted(PStr("25 am")) && !TimeAccepted(PStr("13 pm"))
    ensures !TimeAccepted(PStr("random string")) && !TimeAccepted(PInt(1))
    ensures TimeAccepted(PStr("12 am")) && TimeAccepted(PStr("1 am"))
  {
    NotListed("25 am");
    NotListed("13 pm");
    NotListed("random string");
    assert VALID_TIMES[23] == "12 am" && VALID_TIMES[0] == "1 am";
  }

  /** Only the two booleans pass the `post_queue_paused` check: a string,
      even one PHP reads as true, and an integer are refused. */
  lemma PausedRefusals()
    ensures forall v :: PausedAccepted(v) <==> v == PBool(true) || v == PBool(false)
    ensures !PausedAccepted(PStr("not_a_boolean")) && !PausedAccepted(PStr("1")) && !PausedAccepted(PInt(1))
  {
  }

  /** A name whose first two characters no label starts with is not
      listed. */
  lemma NotListed(name: string)
    requires |name| >= 2
    requires !(name[0] in "123456789" && name[1] in " 012")
    ensures name !in VALID_TIMES
  {
    forall i | 0 <= i < |VALID_TIMES|
      ensures VALID_TIMES[i][0] in "123456789" && VALID_TIMES[i][1] in " 012"
    {
    }
  }

  /** The queue's ids, sent as decimal strings, pass the `order` check. */
  lemma DecimalOrderAccepted(ids: seq<PostId>)
    ensures AllNumeric(seq(|ids|, i requires 0 <= i < |ids| => PStr(Decimal(ids[i]))))
  {
    var order := seq(|ids|, i requires 0 <= i < |ids| => PStr(Decimal(ids[i])));
    forall i | 0 <= i < |order|
      ensures IsNumeric(order[i])
    {
      DecimalIsNumeric(ids[i]);
    }
  }

  /** The parameters of a settings update once validated; None for one the
      request does not carry. */
  datatype SettingsRequest = SettingsRequest(
    publishTimes: Option<int>,
    startTime: Option<string>,
    endTime: Option<string>,
    paused: Option<bool>)

  /** The options after the `update_option` calls of a settings update. */
  function Overlay(o: StoredOptions, r: SettingsRequest): StoredOptions {
    StoredOptions(
      if r.publishTimes.Some? then r.publishTimes else o.publishTimes,
      if r.startTime.Some? then r.startTime else o.startTime,
      if r.endTime.Some? then r.endTime else o.endTime,
      if r.paused.Some? then r.paused else o.paused)
  }

  /** A supplied parameter is stored, an absent one keeps its option; so
      repeating an update changes nothing, an empty request keeps every
      option, and a complete one does not depend on what was stored. */
  lemma OverlayWritesSupplied(o: StoredOptions, r: SettingsRequest)
    ensures var n := Overlay(o, r);
            && n.publishTimes == (if r.publishTimes.Some? then r.publishTimes else o.publishTimes)
            && n.startTime == (if r.startTime.Some? then r.startTime else o.startTime)
            && n.endTime == (if r.endTime.Some? then r.endTime else o.endTime)
            && n.paused == (if r.paused.Some? then r.paused else o.paused)
    ensures Overlay(Overlay(o, r), r) == Overlay(o, r)
    ensures Overlay(o, SettingsRequest(None, None, None, None)) == o
    ensures r.publishTimes.Some? && r.startTime.Some? && r.endTime.Some? && r.paused.Some? ==>
              Overlay(o, r).AllStored()
              && forall o' :: Overlay(o', r) == Overlay(o, r)
  {
  }

  /** The settings the update reads back can drive the calculator. */
  predicate UpdateReadable(o: StoredOptions, r: SettingsRequest) {
    var n := SettingsOf(Overlay(o, r));
    n.Some? && Schedulable(n.value)
  }

  /** The request changes the paused flag the endpoint held. */
  predicate PauseToggled(current: Settings, r: SettingsRequest) {
    r.paused.Some? && r.paused.value != current.paused
  }

  /** The site after the pause step of `update_settings`: paused or
      resumed when the request changes the flag, untouched otherwise. */
  function Toggled(s: SiteState, current: Settings, r: SettingsRequest, w: Window, paused: bool, now: int): SiteState
    requires w.Valid()
  {
    if !PauseToggled(current, r) then s
    else if r.paused.value then AfterPause(s)
    else AfterRecalculate(s, w, paused, s.order, now)
  }

  /** The site after `update_settings` when the manager it builds reads
      its paused flag under `key`: options overlaid; the queue paused or
      resumed when the flag changed; then the current order recalculated
      with the settings read back. */
  function AfterUpdateReading(s: SiteState, current: Settings, r: SettingsRequest, now: int, key: string): SiteState
    requires UpdateReadable(s.options, r)
  {
    var o := Overlay(s.options, r);
    var n := SettingsOf(o).value;
    var w := WindowOf(n).value;
    var m := PausedEntry(n, key);
    var toggled := Toggled(s.(options := o), current, r, w, m, now);
    AfterRecalculate(toggled, w, m, toggled.order, now)
  }

  /** The site after `update_settings`, with the manager reading the flag
      the settings carry. */
  function AfterUpdate(s: SiteState, current: Settings, r: SettingsRequest, now: int): SiteState
    requires UpdateReadable(s.options, r)
  {
    AfterUpdateReading(s, current, r, now, SETTINGS_PAUSED_KEY)
  }

  /** A settings update keeps the queue and its listing; when the queue
      ends up running, every queued post is dated and scheduled at its
      recalculated time; when it is paused by this request, no queued post
      keeps an event; when it was and stays paused, only the options change. */
  lemma UpdateKeepsQueue(s: SiteState, current: Settings, r: SettingsRequest, now: int)
    requires WellFormed(s) && UpdateReadable(s.options, r)
    ensures var n, u := SettingsOf(Overlay(s.options, r)).value, AfterUpdate(s, current, r, now);
            var times := Schedule(WindowOf(n).value, now, |s.order|);
            && WellFormed(u)
            && u.options == Overlay(s.options, r)
            && u.order == s.order && u.statuses == s.statuses
            && (!n.paused ==> forall k :: 0 <= k < |s.order| ==>
                  u.dates[s.order[k]] == times[k] && NextScheduled(u.events, s.order[k]) == Some(times[k]))
            && (n.paused && PauseToggled(current, r) ==>
                  forall x :: x in s.order ==> NextScheduled(u.events, x).None?)
            && (n.paused && !PauseToggled(current, r) ==> u == s.(options := u.options))
  {
    UpdateReadingKeepsQueue(s, current, r, now, SETTINGS_PAUSED_KEY);
  }

  /** As written, the manager built at line 229 reads `wpQueuePaused`, which
      its settings do not carry, so it always runs as if the queue were
      not paused: a request that pauses the queue clears the events and
      then the recalculation schedules every queued post again. */
  lemma PauseUndoneAsWritten(s: SiteState, current: Settings, r: SettingsRequest, now: int)
    requires WellFormed(s) && UpdateReadable(s.options, r) && r.paused == Some(true)
    ensures var n, u := SettingsOf(Overlay(s.options, r)).value, AfterUpdateReading(s, current, r, now, MANAGER_PAUSED_KEY);
            var times := Schedule(WindowOf(n).value, now, |s.order|);
            && n.paused
            && forall k :: 0 <= k < |s.order| ==>
                 u.dates[s.order[k]] == times[k] && NextScheduled(u.events, s.order[k]) == Some(times[k])
  {
    UpdateReadingKeepsQueue(s, current, r, now, MANAGER_PAUSED_KEY);
  }

  /** What a settings update does to the site, for the flag the manager
      reads under `key`. */
  lemma UpdateReadingKeepsQueue(s: SiteState, current: Settings, r: SettingsRequest, now: int, key: string)
    requires WellFormed(s) && UpdateReadable(s.options, r)
    ensures var n, u := SettingsOf(Overlay(s.options, r)).value, AfterUpdateReading(s, current, r, now, key);
            var m := PausedEntry(n, key);
            var times := Schedule(WindowOf(n).value, now, |s.order|);
            && WellFormed(u)
            && u.options == Overlay(s.options, r)
            && u.order == s.order && u.statuses == s.statuses
            && (r.paused.Some? ==> n.paused == r.paused.value)
            && (!m ==> forall k :: 0 <= k < |s.order| ==>
                  u.dates[s.order[k]] == times[k] && NextScheduled(u.events, s.order[k]) == Some(times[k]))
            && (m && PauseToggled(current, r) && r.paused.value ==>
                  forall x :: x in s.order ==> NextScheduled(u.events, x).None?)
            && (m && !PauseToggled(current, r) ==> u == s.(options := u.options))
  {
    var o := Overlay(s.options, r);
    var n := SettingsOf(o).value;
    var w := WindowOf(n).value;
    var m := PausedEntry(n, key);
    var written := s.(options := o);
    assert WellFormed(written);
    assert IsPermutation(s.order, s.order);
    var toggled := Toggled(written, current, r, w, m, now);
    assert WellFormed(toggled) && toggled.order == s.order && toggled.statuses == s.statuses by {
      if PauseToggled(current, r) {
        if r.paused.value {
          PauseClearsEvents(written);
        } else {
          RecalculateKeepsQueue(written, w, m, s.order, now);
        }
      }
    }
    RecalculateKeepsQueue(toggled, w, m, s.order, now);
    if m && PauseToggled(current, r) && r.paused.value {
      PauseClearsEvents(written);
    }
  }

  /** The REST endpoints, holding the settings they were built with. */
  class Endpoints {
    var settings: Settings
    const site: Site

    ghost predicate Valid()
      reads this
    {
      Schedulable(settings)
    }

    constructor(settings: Settings, site: Site)
      requires Schedulable(settings)
      ensures Valid() && this.settings == settings && this.site == site
    {
      this.settings := settings;
      this.site := site;
    }

    /** `get_settings`: the settings held in memory. */
    method GetSettings() returns (r: Settings)
      ensures r == settings
    {
      r := settings;
    }

    /** `update_settings`: store the supplied parameters, read all four
        options back, pause or resume when the flag changed, then
        recalculate the current order and answer with the result. */
    method UpdateSettings(request: SettingsRequest, now: int) returns (updated: seq<UpdatedPost>)
      requires site.Valid() && UpdateReadable(site.options, request)
      modifies this, site
      ensures Valid() && site.Valid()
      ensures Some(settings) == SettingsOf(site.options)
      ensures site.State() == AfterUpdate(old(site.State()), old(settings), request, now)
      ensures Reported(updated, old(site.order), Schedule(WindowOf(settings).value, now, |old(site.order)|))
    {
      ghost var s0 := site.State();
      var current := settings;
      site.options := Overlay(site.options, request);
      settings := SettingsOf(site.options).value;
      var manager := new Manager(settings, site);
      ChangePause(manager, current, request, now);
      updated := manager.RecalculateCurrentOrder(now);
      UpdateKeepsQueue(s0, current, request, now);
    }

    /** `recalculate_publish_times_rest_callback`: recalculate in the order
        the request gives, each element read as a string. */
    method RecalculateOrder(order: seq<PhpValue>, now: int) returns (updated: seq<UpdatedPost>)
      requires Valid() && site.Valid()
      modifies site
      ensures var ids := Reorder(StripAll(Strings(order)), old(site.order));
              && IsPermutation(old(site.order), ids)
              && Reported(updated, ids, Schedule(WindowOf(settings).value, now, |ids|))
              && site.State() == AfterRecalculate(old(site.State()), WindowOf(settings).value, settings.paused, ids, now)
      ensures site.Valid()
    {
      var manager := new Manager(settings, site);
      updated := manager.Recalculate(Strings(order), now);
    }
  }

  /** The pause step of `update_settings`: pause or resume through
      `manager` only when the request changes the flag. */
  method ChangePause(manager: Manager, current: Settings, request: SettingsRequest, now: int)
    requires manager.Valid() && manager.site.Valid()
    modifies manager.site
    ensures manager.site.Valid()
    ensures manager.site.State()
            == Toggled(old(manager.site.State()), current, request, manager.window, manager.settings.paused, now)
  {
    if request.paused.Some? && request.paused.value != current.paused {
      if request.paused.value {
        manager.PauseQueue();
      } else {
        manager.ResumeQueue(now);
      }
    }
  }

  /** The order as `str_replace` sees it: each element as a string. */
  function Strings(order: seq<PhpValue>): (r: seq<string>)
    ensures |r| == |order|
    ensures forall i {:trigger r[i]} :: 0 <= i < |order| ==> r[i] == StringOf(order[i])
  {
    if order == [] then [] else [StringOf(order[0])] + Strings(order[1..])
  }

  /** The queue's ids sent as integers give back the queue in that order. */
  lemma IntegerOrderKept(ids: seq<PostId>, queue: seq<PostId>)
    requires IsPermutation(queue, ids)
    ensures var order := seq(|ids|, i requires 0 <= i < |ids| => PInt(ids[i]));
            && AllNumeric(order)
            && Covers(StripAll(Strings(order)), queue)
            && Arrange(StripAll(Strings(order)), queue) == ids
            && Reorder(StripAll(Strings(order)), queue) == ids
            && Usort(StripAll(Strings(order)), queue) == ids
  {
    var order := seq(|ids|, i requires 0 <= i < |ids| => PInt(ids[i]));
    assert Strings(order) == Decimals(ids);
    RequestedOrderKept(ids, queue);
    StripKeys(ids);
    SortsAgreeWhenCovered(Decimals(ids), queue);
  }
}
