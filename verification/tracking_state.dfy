/** `TrackingStateHelper`: keeps the screen awake while the camera tracks, by
    adding or clearing the window's keep-screen-on flag whenever the tracking
    state changes. Posting to the UI thread is modelled as the list of flag
    actions posted, in order. */
module TrackingStates {
  import opened Common

  /** ARCore's `TrackingState`. */
  datatype TrackingState = Tracking | Paused | Stopped

  /** What `UpdateKeepScreenOnFlag` posts to the UI thread. */
  datatype FlagAction = AddKeepScreenOn | ClearKeepScreenOn

  /** The helper's memory: the last state seen, `None` before the first call
      (the field starts out null). */
  datatype Helper = Helper(previous: Option<TrackingState>)

  /** The screen should stay on exactly when the camera is tracking. */
  predicate KeepsScreenOn(s: TrackingState) {
    s == Tracking
  }

  /** `UpdateKeepScreenOnFlag(trackingState)`: nothing when the state is the one
      seen last; otherwise remember it and post the matching flag change. */
  function Update(h: Helper, s: TrackingState): (r: (Helper, Option<FlagAction>))
    ensures r.0.previous == Some(s)
    ensures r.1.None? <==> h.previous == Some(s)
    ensures r.1.Some? ==> (r.1.value == AddKeepScreenOn <==> KeepsScreenOn(s))
  {
    if h.previous == Some(s) then (h, None)
    else (Helper(Some(s)), Some(if s == Paused || s == Stopped then ClearKeepScreenOn else AddKeepScreenOn))
  }

  /** The window flag after the posted actions have run. */
  function ApplyActions(flag: bool, actions: seq<FlagAction>): bool
    decreases |actions|
  {
    if |actions| == 0 then flag else ApplyActions(actions[0] == AddKeepScreenOn, actions[1..])
  }

  /** A sequence of frames: the helper afterwards and every action posted. */
  function Run(h: Helper, states: seq<TrackingState>): (Helper, seq<FlagAction>)
    decreases |states|
  {
    if |states| == 0 then (h, [])
    else
      var (h1, a) := Update(h, states[0]);
      var (h2, rest) := Run(h1, states[1..]);
      (h2, (if a.Some? then [a.value] else []) + rest)
  }

  /** How often the state differs from the one before it, the first frame counting
      as a change when nothing was seen before it. */
  function Changes(previous: Option<TrackingState>, states: seq<TrackingState>): nat
    decreases |states|
  {
    if |states| == 0 then 0
    else (if previous == Some(states[0]) then 0 else 1) + Changes(Some(states[0]), states[1..])
  }

  lemma ApplyActionsAppend(flag: bool, a: seq<FlagAction>, b: seq<FlagAction>)
    ensures ApplyActions(flag, a + b) == ApplyActions(ApplyActions(flag, a), b)
    decreases |a|
  {
    if |a| > 0 {
      assert (a + b)[1..] == a[1..] + b;
      ApplyActionsAppend(a[0] == AddKeepScreenOn, a[1..], b);
    } else {
      assert a + b == b;
    }
  }

  /** One action is posted per change of state and no more. */
  lemma {:induction false} RunPostsOnePerChange(h: Helper, states: seq<TrackingState>)
    ensures |Run(h, states).1| == Changes(h.previous, states)
    ensures |states| > 0 ==> Run(h, states).0.previous == Some(states[|states| - 1])
    decreases |states|
  {
    if |states| > 0 {
      RunPostsOnePerChange(Update(h, states[0]).0, states[1..]);
    }
  }

  /** Once the window flag agrees with the remembered state (or nothing has been
      remembered yet), after any non-empty run of frames the screen is kept on
      exactly when the last frame was tracking. */
  lemma {:induction false} RunKeepsFlagInStep(h: Helper, flag: bool, states: seq<TrackingState>)
    requires h.previous.Some? ==> flag == KeepsScreenOn(h.previous.value)
    requires |states| > 0
    ensures ApplyActions(flag, Run(h, states).1) == KeepsScreenOn(states[|states| - 1])
    decreases |states|
  {
    var (h1, a) := Update(h, states[0]);
    var posted := if a.Some? then [a.value] else [];
    var flag1 := ApplyActions(flag, posted);
    if a.Some? {
      assert ApplyActions(flag, posted) == ApplyActions(a.value == AddKeepScreenOn, []);
    }
    assert flag1 == KeepsScreenOn(states[0]);
    ApplyActionsAppend(flag, posted, Run(h1, states[1..]).1);
    if |states| > 1 {
      RunKeepsFlagInStep(h1, flag1, states[1..]);
    } else {
      assert Run(h1, states[1..]).1 == [];
    }
  }

  /** A repeated state posts nothing the second time. */
  lemma UpdateIdempotent(h: Helper, s: TrackingState)
    ensures var h1 := Update(h, s).0;
            Update(h1, s) == (h1, None)
  {
  }

  const FailurePrefix := "Unknown tracking failure reason: "

  /** `GetTrackingFailureReasonString(camera)`, given the name the camera's
      `TrackingFailureReason` prints as. */
  function FailureReasonString(reason: string): (r: string)
    ensures |r| == |FailurePrefix| + |reason|
    ensures r[..|FailurePrefix|] == FailurePrefix && r[|FailurePrefix|..] == reason
  {
    FailurePrefix + reason
  }

  /** Different reasons give different messages. */
  lemma FailureReasonStringInjective(a: string, b: string)
    requires FailureReasonString(a) == FailureReasonString(b)
    ensures a == b
  {
    assert a == FailureReasonString(a)[|FailurePrefix|..];
  }
}
