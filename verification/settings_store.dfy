/**
 * The settings panel's data store: its state is the four queue settings,
 * changed only by the reducer in answer to the actions the panel
 * dispatches.
 */
module SettingsStore {
  import opened Wrappers
  import opened Settings
  import opened Admin

  /** The initial state: the settings the admin page handed to the panel,
      which are the stored options with their defaults. */
  function DefaultState(o: StoredOptions): (r: Settings)
    ensures o.AllStored() ==> SettingsOf(o) == Some(r)
    ensures o == StoredOptions(None, None, None, None) ==> r == DEFAULT_SETTINGS
  {
    FreshSiteDefaults();
    AdminSettings(o)
  }

  /** A settings object received from the server, each key present or
      not. */
  datatype Received = Received(
    publishTimes: Option<int>, startTime: Option<string>, endTime: Option<string>, paused: Option<bool>)

  /** All four keys of `s`, as the settings endpoint answers. */
  function Full(s: Settings): Received {
    Received(Some(s.publishTimes), Some(s.startTime), Some(s.endTime), Some(s.paused))
  }

  /** The actions the panel dispatches; each action creator builds one of
      these with its argument as payload. `Other` is any action type this
      reducer does not handle. */
  datatype Action =
    | SetPublishTimes(publishTimes: int)
    | SetStartTime(startTime: string)
    | SetEndTime(endTime: string)
    | SetPostQueuePaused(paused: bool)
    | ReceiveSettings(settings: Received)
    | Other(kind: string)

  /** The branch of the reducer's `switch (action.type)` a type selects,
      numbered in the order the reducer lists its cases; None for the
      default branch. */
  function SwitchCase(t: string): (r: Option<nat>)
    ensures r.Some? ==> r.value < 5
  {
    if t == "SET_PUBLISH_TIMES" then Some(0)
    else if t == "SET_START_TIME" then Some(1)
    else if t == "SET_END_TIME" then Some(2)
    else if t == "RECEIVE_SETTINGS" then Some(3)
    else if t == "SET_POST_QUEUE_PAUSED" then Some(4)
    else None
  }

  /** The action's `type` field. Each action creator's type selects the
      reducer's branch for that action, a different one for each creator;
      an action of another type keeps its own. */
  function TypeOf(a: Action): (r: string)
    ensures a.SetPublishTimes? ==> SwitchCase(r) == Some(0)
    ensures a.SetStartTime? ==> SwitchCase(r) == Some(1)
    ensures a.SetEndTime? ==> SwitchCase(r) == Some(2)
    ensures a.ReceiveSettings? ==> SwitchCase(r) == Some(3)
    ensures a.SetPostQueuePaused? ==> SwitchCase(r) == Some(4)
    ensures a.Other? ==> r == a.kind
  {
    match a
    case SetPublishTimes(_) => "SET_PUBLISH_TIMES"
    case SetStartTime(_) => "SET_START_TIME"
    case SetEndTime(_) => "SET_END_TIME"
    case SetPostQueuePaused(_) => "SET_POST_QUEUE_PAUSED"
    case ReceiveSettings(_) => "RECEIVE_SETTINGS"
    case Other(kind) => kind
  }

  /** The reducer; an undefined state starts from `defaults`. */
  function Reduce(defaults: Settings, state: Option<Settings>, action: Action): Settings {
    var s := state.GetOr(defaults);
    match action
    case SetPublishTimes(n) => s.(publishTimes := n)
    case SetStartTime(t) => s.(startTime := t)
    case SetEndTime(t) => s.(endTime := t)
    case SetPostQueuePaused(p) => s.(paused := p)
    case ReceiveSettings(r) =>
      Settings(r.publishTimes.GetOr(s.publishTimes), r.startTime.GetOr(s.startTime),
               r.endTime.GetOr(s.endTime), r.paused.GetOr(s.paused))
    case Other(_) => s
  }

  /** The `getSettings` selector: the whole state. */
  function GetSettings(state: Settings): (r: Settings)
    ensures r.publishTimes == state.publishTimes && r.startTime == state.startTime
    ensures r.endTime == state.endTime && r.paused == state.paused
  {
    state
  }

  /** Each setter changes its own setting to the payload and leaves the
      other three as they were. */
  lemma SettersChangeOneField(defaults: Settings, s: Settings, a: Action)
    requires a.SetPublishTimes? || a.SetStartTime? || a.SetEndTime? || a.SetPostQueuePaused?
    ensures var r := Reduce(defaults, Some(s), a);
            && r.publishTimes == (if a.SetPublishTimes? then a.publishTimes else s.publishTimes)
            && r.startTime == (if a.SetStartTime? then a.startTime else s.startTime)
            && r.endTime == (if a.SetEndTime? then a.endTime else s.endTime)
            && r.paused == (if a.SetPostQueuePaused? then a.paused else s.paused)
  {
  }

  /** Receiving overwrites exactly the keys received: a full answer
      replaces the state, an empty one keeps it, and receiving the state
      itself or the same answer twice changes nothing more. */
  lemma ReceiveOverlays(defaults: Settings, s: Settings, r: Received)
    ensures var t := Reduce(defaults, Some(s), ReceiveSettings(r));
            && (r.publishTimes.Some? ==> t.publishTimes == r.publishTimes.value)
            && (r.publishTimes.None? ==> t.publishTimes == s.publishTimes)
            && (r.startTime.Some? ==> t.startTime == r.startTime.value)
            && (r.startTime.None? ==> t.startTime == s.startTime)
            && (r.endTime.Some? ==> t.endTime == r.endTime.value)
            && (r.endTime.None? ==> t.endTime == s.endTime)
            && (r.paused.Some? ==> t.paused == r.paused.value)
            && (r.paused.None? ==> t.paused == s.paused)
            && Reduce(defaults, Some(t), ReceiveSettings(r)) == t
    ensures forall x :: Reduce(defaults, Some(s), ReceiveSettings(Full(x))) == x
    ensures Reduce(defaults, Some(s), ReceiveSettings(Received(None, None, None, None))) == s
    ensures Reduce(defaults, Some(s), ReceiveSettings(Full(s))) == s
  {
  }

  /** An action of any other type returns the state unchanged, and before
      the first action the state is the default one. */
  lemma OtherKeepsState(defaults: Settings, state: Option<Settings>, a: Action)
    ensures a.Other? ==> Reduce(defaults, state, a) == state.GetOr(defaults)
    ensures Reduce(defaults, None, a) == Reduce(defaults, Some(defaults), a)
  {
  }

  /** Setters of different settings commute, and of the same setting the
      last one wins. */
  lemma SettersCommute(defaults: Settings, s: Settings, a: Action, b: Action)
    requires a.SetPublishTimes? || a.SetStartTime? || a.SetEndTime? || a.SetPostQueuePaused?
    requires b.SetPublishTimes? || b.SetStartTime? || b.SetEndTime? || b.SetPostQueuePaused?
    ensures TypeOf(a) != TypeOf(b) ==>
              Reduce(defaults, Some(Reduce(defaults, Some(s), a)), b)
              == Reduce(defaults, Some(Reduce(defaults, Some(s), b)), a)
    ensures TypeOf(a) == TypeOf(b) ==>
              Reduce(defaults, Some(Reduce(defaults, Some(s), a)), b) == Reduce(defaults, Some(s), b)
  {
  }

  /** The state after the store has dispatched `actions`, in order, from
      `state`. */
  function Replay(defaults: Settings, state: Option<Settings>, actions: seq<Action>): Settings
    decreases |actions|
  {
    if actions == [] then state.GetOr(defaults)
    else Replay(defaults, Some(Reduce(defaults, state, actions[0])), actions[1..])
  }

  /** The actions of `actions` the reducer handles. */
  function Handled(actions: seq<Action>): (r: seq<Action>)
    ensures |r| <= |actions|
    ensures forall a :: a in r ==> a in actions && !a.Other?
  {
    if actions == [] then []
    else if actions[0].Other? then Handled(actions[1..])
    else [actions[0]] + Handled(actions[1..])
  }

  /** Actions of other types never show in the settings: dropping them
      from any history leaves its final state as it was. */
  lemma {:induction false} ReplayIgnoresOther(defaults: Settings, state: Option<Settings>, actions: seq<Action>)
    ensures Replay(defaults, state, Handled(actions)) == Replay(defaults, state, actions)
    decreases |actions|
  {
    if actions != [] {
      var rest := actions[1..];
      ReplayIgnoresOther(defaults, Some(Reduce(defaults, state, actions[0])), rest);
      if actions[0].Other? {
        ReplayIgnoresOther(defaults, Some(state.GetOr(defaults)), rest);
        ReplayFromDefined(defaults, state, Handled(rest));
      } else {
        var h := Handled(actions);
        assert h[0] == actions[0] && h[1..] == Handled(rest);
      }
    }
  }

  /** Starting undefined is starting from the defaults. */
  lemma ReplayFromDefined(defaults: Settings, state: Option<Settings>, actions: seq<Action>)
    ensures Replay(defaults, state, actions) == Replay(defaults, Some(state.GetOr(defaults)), actions)
  {
  }

  /** Whatever came before, after the server's full answer the store holds
      exactly the settings the server sent, until the next action. */
  lemma {:induction false} ReceiveFullResets(defaults: Settings, state: Option<Settings>, actions: seq<Action>, x: Settings)
    ensures Replay(defaults, state, actions + [ReceiveSettings(Full(x))]) == x
    decreases |actions|
  {
    if actions == [] {
      assert [] + [ReceiveSettings(Full(x))] == [ReceiveSettings(Full(x))];
    } else {
      assert (actions + [ReceiveSettings(Full(x))])[1..] == actions[1..] + [ReceiveSettings(Full(x))];
      ReceiveFullResets(defaults, Some(Reduce(defaults, state, actions[0])), actions[1..], x);
    }
  }
}
