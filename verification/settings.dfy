/**
 * The four queue settings and the labels the settings screen offers for the
 * daily window (`REST_API::$valid_times`). A label names a whole hour; the
 * scheduler reads it as that hour of the current day.
 */
module Settings {
  import opened Wrappers
  import opened Scheduler

  /** The 24 accepted time labels, in the order the REST API lists them:
      entry `i` is the hour `(i + 1) mod 24`. */
  const VALID_TIMES: seq<string> := [
    "1 am", "2 am", "3 am", "4 am", "5 am", "6 am", "7 am", "8 am",
    "9 am", "10 am", "11 am", "12 pm", "1 pm", "2 pm", "3 pm", "4 pm",
    "5 pm", "6 pm", "7 pm", "8 pm", "9 pm", "10 pm", "11 pm", "12 am"
  ]

  /** Seconds after midnight of the hour named by `VALID_TIMES[i]`. */
  function LabelSeconds(i: nat): (s: int)
    requires i < |VALID_TIMES|
    ensures 0 <= s < DAY && s % 3600 == 0
  {
    ((i + 1) % 24) * 3600
  }

  /** Position of `name` in `VALID_TIMES` (the strict `in_array` match). */
  function LabelIndex(name: string): (r: Option<nat>)
    ensures r.Some? ==> r.value < |VALID_TIMES| && VALID_TIMES[r.value] == name
  {
    IndexFrom(name, 0)
  }

  function IndexFrom(name: string, i: nat): (r: Option<nat>)
    requires i <= |VALID_TIMES|
    ensures r.Some? ==> i <= r.value < |VALID_TIMES| && VALID_TIMES[r.value] == name
    decreases |VALID_TIMES| - i
  {
    if i == |VALID_TIMES| then None
    else if VALID_TIMES[i] == name then Some(i)
    else IndexFrom(name, i + 1)
  }

  /** The search from position `i` finds `name` exactly when it is listed at
      or after `i`. */
  lemma {:induction false} IndexFromFinds(name: string, i: nat)
    requires i <= |VALID_TIMES|
    ensures IndexFrom(name, i).Some? <==> name in VALID_TIMES[i..]
    decreases |VALID_TIMES| - i
  {
    if i < |VALID_TIMES| && VALID_TIMES[i] != name {
      assert VALID_TIMES[i..] == [VALID_TIMES[i]] + VALID_TIMES[i + 1..];
      IndexFromFinds(name, i + 1);
    }
  }

  /** `strtotime(name)` as a second of the day, for an accepted name: a
      whole hour. */
  function TimeOfLabel(name: string): (r: Option<int>)
    ensures r.Some? ==> 0 <= r.value < DAY && r.value % 3600 == 0
  {
    var i := LabelIndex(name);
    if i.Some? then Some(LabelSeconds(i.value)) else None
  }

  /** A label has a time exactly when `in_array` accepts it. */
  lemma LabelAccepted(name: string)
    ensures TimeOfLabel(name).Some? <==> name in VALID_TIMES
  {
    IndexFromFinds(name, 0);
  }

  /** The label of the hour `h`. */
  function LabelOfHour(h: int): (name: string)
    requires 0 <= h < 24
    ensures name in VALID_TIMES
  {
    VALID_TIMES[(h + 23) % 24]
  }

  /** No label is listed twice, so a label's position is unique. */
  lemma LabelsDistinct()
    ensures forall i, j :: 0 <= i < j < |VALID_TIMES| ==> VALID_TIMES[i] != VALID_TIMES[j]
  {
  }

  /** Every hour has exactly one label, and reading a label gives back the
      hour it names: labels and whole hours of the day are in one-to-one
      correspondence. */
  lemma {:induction false} LabelHourRoundTrip(h: int)
    requires 0 <= h < 24
    ensures TimeOfLabel(LabelOfHour(h)) == Some(h * 3600)
  {
    var i := (h + 23) % 24;
    ListedLabelIndex(i);
    assert LabelOfHour(h) == VALID_TIMES[i];
    assert TimeOfLabel(VALID_TIMES[i]) == Some(LabelSeconds(i));
    HourIndex(h);
  }

  lemma {:induction false} HourLabelRoundTrip(name: string)
    requires name in VALID_TIMES
    ensures TimeOfLabel(name).Some? && TimeOfLabel(name).value % 3600 == 0
    ensures TimeOfLabel(name).Some? && LabelOfHour(TimeOfLabel(name).value / 3600) == name
  {
    var i :| 0 <= i < |VALID_TIMES| && VALID_TIMES[i] == name;
    ListedLabelIndex(i);
    var h := (i + 1) % 24;
    assert TimeOfLabel(name).value == h * 3600;
    assert (h * 3600) / 3600 == h;
    HourIndex(h);
    assert (h + 23) % 24 == i by {
      IndexHour(i);
    }
  }

  lemma HourIndex(h: int)
    requires 0 <= h < 24
    ensures ((h + 23) % 24 + 1) % 24 == h
  {
    if h == 0 {
      assert (h + 23) % 24 == 23;
    } else {
      assert (h + 23) % 24 == h - 1;
    }
  }

  lemma IndexHour(i: int)
    requires 0 <= i < 24
    ensures ((i + 1) % 24 + 23) % 24 == i
  {
    if i == 23 {
      assert (i + 1) % 24 == 0;
    } else {
      assert (i + 1) % 24 == i + 1;
    }
  }

  /** The label at position `i` is found at position `i`. */
  lemma ListedLabelIndex(i: nat)
    requires i < |VALID_TIMES|
    ensures LabelIndex(VALID_TIMES[i]) == Some(i)
  {
    LabelsDistinct();
    IndexFromFinds(VALID_TIMES[i], 0);
    assert VALID_TIMES[0..] == VALID_TIMES;
    var r := LabelIndex(VALID_TIMES[i]);
    assert VALID_TIMES[r.value] == VALID_TIMES[i];
  }

  /** The settings the manager is built from: posts per day, window start
      and end labels, and whether the queue is paused. */
  datatype Settings = Settings(publishTimes: int, startTime: string, endTime: string, paused: bool)

  /** The defaults the admin screen falls back to: two posts a day between
      12 am and 1 am, not paused. */
  const DEFAULT_SETTINGS: Settings := Settings(2, VALID_TIMES[23], VALID_TIMES[0], false)

  /** The daily window of `s`, when both labels are accepted ones. */
  function WindowOf(s: Settings): (w: Option<Window>)
  {
    var st, et := TimeOfLabel(s.startTime), TimeOfLabel(s.endTime);
    if st.Some? && et.Some? then Some(Window(s.publishTimes, st.value, et.value)) else None
  }

  /** Settings the calculator can schedule with: accepted labels and a valid
      window (at least one post a day, start before end, whole-second
      interval). */
  predicate Schedulable(s: Settings) {
    WindowOf(s).Some? && WindowOf(s).value.Valid()
  }

  /** The defaults give the window 00:00-01:00 with two slots, 20 minutes
      apart. */
  lemma DefaultsSchedulable()
    ensures Schedulable(DEFAULT_SETTINGS)
    ensures WindowOf(DEFAULT_SETTINGS) == Some(Window(2, 0, 3600))
    ensures WindowOf(DEFAULT_SETTINGS).value.Interval() == 1200
  {
    DefaultLabels();
    var w := Window(2, 0, 3600);
    assert w.Valid();
    assert w.Interval() == 1200;
  }

  lemma DefaultLabels()
    ensures DEFAULT_SETTINGS.startTime == "12 am" && DEFAULT_SETTINGS.endTime == "1 am"
    ensures TimeOfLabel(DEFAULT_SETTINGS.startTime) == Some(0)
    ensures TimeOfLabel(DEFAULT_SETTINGS.endTime) == Some(3600)
  {
    ListedLabelIndex(23);
    ListedLabelIndex(0);
  }

  /** The plugin's four options as stored (`post_queue_publish_times`,
      `post_queue_start_time`, `post_queue_end_time`, `post_queue_paused`);
      None stands for an option that was never written. */
  datatype StoredOptions = StoredOptions(
    publishTimes: Option<int>,
    startTime: Option<string>,
    endTime: Option<string>,
    paused: Option<bool>)
  {
    predicate AllStored() {
      publishTimes.Some? && startTime.Some? && endTime.Some? && paused.Some?
    }
  }

  /** The settings read back with `get_option` and no fallback: defined
      when every option has been written. */
  function SettingsOf(o: StoredOptions): (r: Option<Settings>)
    ensures r.Some? <==> o.AllStored()
  {
    if o.AllStored() then
      Some(Settings(o.publishTimes.value, o.startTime.value, o.endTime.value, o.paused.value))
    else None
  }

  /** Storing settings and reading them back gives the same settings. */
  lemma StoredSettingsRoundTrip(s: Settings)
    ensures SettingsOf(StoredOptions(Some(s.publishTimes), Some(s.startTime), Some(s.endTime), Some(s.paused))) == Some(s)
  {
  }
}
