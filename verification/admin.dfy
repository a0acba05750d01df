/**
 * The admin screens of the plugin (`Admin`): the settings with their
 * defaults, the queue listing's default sort, drag-handle column and post
 * states, and the recalculation run once when the site's timezone changes.
 */
module Admin {
  import opened Wrappers
  import opened Scheduler
  import opened Settings
  import opened PostIds
  import opened PhpValues
  import opened QueueState
  import opened QueueManager

  /** `get_settings`: each option as stored, or its default when it was
      never written. */
  function AdminSettings(o: StoredOptions): (r: Settings)
    ensures o.AllStored() ==> SettingsOf(o) == Some(r)
    ensures o.publishTimes.None? ==> r.publishTimes == 2
    ensures o.startTime.None? ==> r.startTime == "12 am"
    ensures o.endTime.None? ==> r.endTime == "1 am"
    ensures o.paused.None? ==> !r.paused
  {
    DefaultLabels();
    Settings(
      o.publishTimes.GetOr(DEFAULT_SETTINGS.publishTimes),
      o.startTime.GetOr(DEFAULT_SETTINGS.startTime),
      o.endTime.GetOr(DEFAULT_SETTINGS.endTime),
      o.paused.GetOr(DEFAULT_SETTINGS.paused))
  }

  /** A site with no stored option gets the default settings, and those
      can drive the calculator. */
  lemma FreshSiteDefaults()
    ensures AdminSettings(StoredOptions(None, None, None, None)) == DEFAULT_SETTINGS
    ensures Schedulable(AdminSettings(StoredOptions(None, None, None, None)))
  {
    DefaultsSchedulable();
  }

  // ---- The queue listing ----

  /** `get_query_var(key)`: the value set, or '' when none is. */
  function QueryVar(vars: map<string, string>, key: string): string {
    if key in vars then vars[key] else ""
  }

  /** PHP's truth value of a string. */
  predicate Truthy(s: string) {
    s != "" && s != "0"
  }

  /** The query variables once the default sort is filled in: by date,
      ascending, unless the request chose otherwise. */
  function WithDefaultOrder(vars: map<string, string>): map<string, string> {
    var orderby, order := QueryVar(vars, "orderby"), QueryVar(vars, "order");
    vars["orderby" := if Truthy(orderby) then orderby else "date"]
        ["order" := if Truthy(order) then order else "ASC"]
  }

  /** A sort the request gives is kept, a missing one becomes date
      ascending, nothing else changes, and filling in twice is filling in
      once. */
  lemma DefaultOrderKeepsChoice(vars: map<string, string>)
    ensures var r := WithDefaultOrder(vars);
            && r["orderby"] == (if Truthy(QueryVar(vars, "orderby")) then vars["orderby"] else "date")
            && r["order"] == (if Truthy(QueryVar(vars, "order")) then vars["order"] else "ASC")
            && r.Keys == vars.Keys + {"orderby", "order"}
            && (forall k :: k in vars && k != "orderby" && k != "order" ==> r[k] == vars[k])
            && WithDefaultOrder(r) == r
  {
    var r := WithDefaultOrder(vars);
    assert QueryVar(r, "orderby") == r["orderby"];
    assert QueryVar(r, "order") == r["order"];
  }

  /** The WordPress query a listing is built from. */
  class Query {
    var vars: map<string, string>
    const isMainQuery: bool

    constructor(vars: map<string, string>, isMainQuery: bool)
      ensures this.vars == vars && this.isMainQuery == isMainQuery
    {
      this.vars := vars;
      this.isMainQuery := isMainQuery;
    }
  }

  /** The listing is the queue screen's: the main admin query of the
      posts screen, filtered to queued posts. */
  predicate QueueScreen(isAdmin: bool, isMainQuery: bool, screenId: string, vars: map<string, string>) {
    isAdmin && isMainQuery && screenId == "edit-post" && QueryVar(vars, "post_status") == QUEUED
  }

  /** `set_default_queue_order`: on the queue screen, sort by date,
      ascending, unless the request chose a sort; any other query is left
      alone. */
  method SetDefaultQueueOrder(query: Query, isAdmin: bool, screenId: string)
    modifies query
    ensures QueueScreen(isAdmin, query.isMainQuery, screenId, old(query.vars)) ==>
              query.vars == WithDefaultOrder(old(query.vars))
    ensures !QueueScreen(isAdmin, query.isMainQuery, screenId, old(query.vars)) ==>
              query.vars == old(query.vars)
  {
    if !isAdmin || !query.isMainQuery {
      return;
    }
    if screenId == "edit-post" && QueryVar(query.vars, "post_status") == QUEUED {
      var orderby := QueryVar(query.vars, "orderby");
      var order := QueryVar(query.vars, "order");
      query.vars := query.vars["orderby" := if Truthy(orderby) then orderby else "date"];
      query.vars := query.vars["order" := if Truthy(order) then order else "ASC"];
    }
  }

  /** The columns of a listing: name and header, in display order. */
  type Columns = seq<(string, string)>

  const DRAG_HANDLE: string := "drag_handle"
  const DRAG_HANDLE_HEADER: string := "<span class=\"dashicons dashicons-menu-alt\"></span>"

  /** The names of `cols`, in order. */
  function Names(cols: Columns): (r: seq<string>)
    ensures |r| == |cols|
    ensures forall i {:trigger r[i]} :: 0 <= i < |cols| ==> r[i] == cols[i].0
  {
    if cols == [] then [] else [cols[0].0] + Names(cols[1..])
  }

  /** `$cols[name] = header`: the header of an existing column is replaced
      where it stands, a new column goes last. */
  function Put(cols: Columns, name: string, header: string): (r: Columns)
    ensures |r| == |cols| + (if name in Names(cols) then 0 else 1)
    ensures forall i :: 0 <= i < |cols| ==> r[i].0 == cols[i].0
    ensures name in Names(r)
  {
    if cols == [] then [(name, header)]
    else if cols[0].0 == name then [(name, header)] + cols[1..]
    else [cols[0]] + Put(cols[1..], name, header)
  }

  /** `array_merge(a, b)` on string keys: the columns of `b` are put into
      `a` one after the other. */
  function Merge(a: Columns, b: Columns): (r: Columns)
    decreases |b|
  {
    if b == [] then a else Merge(Put(a, b[0].0, b[0].1), b[1..])
  }

  /** `conditionally_add_drag_handle_column`. */
  function DragHandleColumns(columns: Columns, postStatus: string): Columns {
    if postStatus == QUEUED then Merge([(DRAG_HANDLE, DRAG_HANDLE_HEADER)], columns) else columns
  }

  /** On the queue screen the drag handle is the first column, and when the
      columns did not have one it is simply put in front of them; on any
      other screen the columns are returned as they were. */
  lemma DragHandleFirst(columns: Columns, postStatus: string)
    ensures var r := DragHandleColumns(columns, postStatus);
            && (postStatus == QUEUED ==> r != [] && r[0].0 == DRAG_HANDLE)
            && (postStatus == QUEUED && Distinct(Names(columns)) && DRAG_HANDLE !in Names(columns) ==>
                  r == [(DRAG_HANDLE, DRAG_HANDLE_HEADER)] + columns)
            && (postStatus != QUEUED ==> r == columns)
  {
    var head := [(DRAG_HANDLE, DRAG_HANDLE_HEADER)];
    if postStatus == QUEUED {
      MergeKeepsFirst(head, columns);
      if Distinct(Names(columns)) && DRAG_HANDLE !in Names(columns) {
        assert Distinct(Names(head + columns)) by {
          NamesAppend(head, columns);
          assert Names(head) == [DRAG_HANDLE];
        }
        MergeFresh(head, columns);
      }
    }
  }

  /** Merging keeps the first column of `a` in front. */
  lemma {:induction false} MergeKeepsFirst(a: Columns, b: Columns)
    requires a != []
    ensures var r := Merge(a, b); r != [] && r[0].0 == a[0].0
    decreases |b|
  {
    if b != [] {
      var a' := Put(a, b[0].0, b[0].1);
      assert a'[0].0 == a[0].0;
      MergeKeepsFirst(a', b[1..]);
    }
  }

  /** When no name is repeated, merging is appending. */
  lemma {:induction false} MergeFresh(a: Columns, b: Columns)
    requires Distinct(Names(a + b))
    ensures Merge(a, b) == a + b
    decreases |b|
  {
    if b != [] {
      var a', b' := a + [b[0]], b[1..];
      assert Merge(a, b) == Merge(a', b') by {
        FreshFirst(a, b);
        PutFresh(a, b[0].0, b[0].1);
      }
      MoveFirst(a, b);
      MergeFresh(a', b');
    }
  }

  lemma MoveFirst<T>(a: seq<T>, b: seq<T>)
    requires b != []
    ensures a + b == (a + [b[0]]) + b[1..]
  {
  }

  /** With no name repeated, the first name of `b` is not one of `a`. */
  lemma FreshFirst(a: Columns, b: Columns)
    requires b != [] && Distinct(Names(a + b))
    ensures b[0].0 !in Names(a)
  {
    var n := Names(a + b);
    forall j | 0 <= j < |a| ensures Names(a)[j] != b[0].0 {
      assert n[j] == a[j].0 && n[|a|] == b[0].0;
    }
  }

  lemma {:induction false} PutFresh(cols: Columns, name: string, header: string)
    requires name !in Names(cols)
    ensures Put(cols, name, header) == cols + [(name, header)]
  {
    if cols != [] {
      assert Names(cols) == [cols[0].0] + Names(cols[1..]);
      PutFresh(cols[1..], name, header);
    }
  }

  lemma NamesAppend(a: Columns, b: Columns)
    ensures Names(a + b) == Names(a) + Names(b)
  {
  }

  /** The label the plugin shows for a queued post. */
  const QUEUED_LABEL: string := "Queued"

  /** `display_post_states`: a post whose stored status is queued gets the
      label after its other states. */
  function DisplayPostStates(states: seq<string>, statuses: map<PostId, string>, p: PostId): (r: seq<string>)
    ensures |r| == |states| + (if p in statuses && statuses[p] == QUEUED then 1 else 0)
    ensures r[..|states|] == states
    ensures |r| > |states| ==> r[|states|] == QUEUED_LABEL
  {
    if p in statuses && statuses[p] == QUEUED then states + [QUEUED_LABEL] else states
  }

  /** `post_date_column_status`: the date column of a queued post shows
      the label instead of its usual status. */
  function PostDateColumnStatus(status: string, postStatus: string): (r: string)
    ensures postStatus == QUEUED ==> r == QUEUED_LABEL
    ensures postStatus != QUEUED ==> r == status
  {
    if postStatus == QUEUED then QUEUED_LABEL else status
  }

  /** For a post of the site, the listing marks it queued in its states
      exactly when its date column does. */
  lemma QueuedMarksAgree(states: seq<string>, status: string, statuses: map<PostId, string>, p: PostId)
    requires p in statuses && status != QUEUED_LABEL
    ensures var r := DisplayPostStates(states, statuses, p);
            |r| > |states| <==> PostDateColumnStatus(status, statuses[p]) == QUEUED_LABEL
  {
  }

  /** As written, the manager the timezone handler builds reads its flag
      under `wpQueuePaused`, which the reloaded settings never carry, so a
      timezone change on a paused queue re-dates every queued post and
      schedules an event for each; read under the key the settings carry,
      the paused queue is left as it was. */
  lemma TimezoneReschedulesPausedAsWritten(s: SiteState, settings: Settings, now: int)
    requires WellFormed(s) && Schedulable(settings) && settings.paused
    ensures var w := WindowOf(settings).value;
            var u := AfterRecalculate(s, w, PausedEntry(settings, MANAGER_PAUSED_KEY), s.order, now);
            var times := Schedule(w, now, |s.order|);
            forall k :: 0 <= k < |s.order| ==>
              u.dates[s.order[k]] == times[k] && NextScheduled(u.events, s.order[k]) == Some(times[k])
    ensures AfterRecalculate(s, WindowOf(settings).value, PausedEntry(settings, SETTINGS_PAUSED_KEY), s.order, now) == s
  {
    assert IsPermutation(s.order, s.order);
    RecalculateKeepsQueue(s, WindowOf(settings).value, false, s.order, now);
  }

  /** The admin side, holding the settings it was built with. */
  class AdminScreen {
    var settings: Settings
    /** The `static $has_run` of the timezone handler. */
    var timezoneHandled: bool
    const site: Site

    constructor(settings: Settings, site: Site)
      ensures this.settings == settings && this.site == site && !timezoneHandled
    {
      this.settings := settings;
      this.site := site;
      this.timezoneHandled := false;
    }

    /** `get_settings`, read from the site's options. */
    method GetSettings() returns (r: Settings)
      ensures r == AdminSettings(site.options)
    {
      r := AdminSettings(site.options);
    }

    /** `handle_timezone_or_gmt_offset_update`: the first change to a
        non-empty value reloads the settings and recalculates the queue in
        its current order; an empty value returns before the latch is set,
        and once it is set every later call does nothing. Settings that
        cannot drive the calculator are reloaded but leave the queue as it
        was, and `recalculated` is false. */
    method HandleTimezoneUpdate(oldValue: PhpValue, newValue: PhpValue, now: int) returns (recalculated: bool)
      requires site.Valid()
      modifies this, site
      ensures site.Valid()
      ensures timezoneHandled == (old(timezoneHandled) || !Empty(newValue))
      ensures recalculated <==>
                !old(timezoneHandled) && !Empty(newValue) && Schedulable(AdminSettings(old(site.options)))
      ensures old(timezoneHandled) || Empty(newValue) ==> settings == old(settings)
      ensures !old(timezoneHandled) && !Empty(newValue) ==> settings == AdminSettings(site.options)
      ensures !recalculated ==> site.State() == old(site.State())
      ensures recalculated ==>
                && Schedulable(settings)
                && site.State()
                   == AfterRecalculate(old(site.State()), WindowOf(settings).value, settings.paused, old(site.order), now)
    {
      recalculated := false;
      if timezoneHandled || Empty(newValue) {
        return;
      }
      timezoneHandled := true;
      settings := GetSettings();
      if !Schedulable(settings) {
        return;
      }
      var manager := new Manager(settings, site);
      var _ := manager.RecalculateCurrentOrder(now);
      recalculated := true;
    }
  }
}
