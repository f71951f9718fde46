// One poll of the monitor: what it leaves a human knowing, and what it retries.

module MonitorLaws {
  import opened Chars
  import opened SchedulingHealth
  import opened Monitor

  // The states an axis can be in, and those of them said again while they last.
  function StatesOf(k: nat): set<State> {
    if k == 0 then {Healthy, Stalled, NoSignal, Unreachable, WorkerDown, WorkerUnknown}
    else if k == 1 then {Delivering, Quiet, Failing, Unreachable}
    else {Split, Same}
  }

  function Repeats(k: nat): set<State> {
    StatesOf(k) - {Healthy, Delivering, Quiet, Same}
  }

  // How long such a state may go unsaid once it was said.
  function Interval(state: State, seen: nat): real {
    if state == Split then RENOTICE_SPLIT_AFTER_S
    else if state == NoSignal || state == WorkerUnknown then
      if seen > 0 then RENOTICE_LOST_DESTINATIONS_AFTER_S else RENOTICE_NO_SIGNAL_AFTER_S
    else REALERT_AFTER_S
  }

  // Whether a poll at `now` that left the axis so could see what it judges.
  predicate Sees(k: nat, sight: Sight, thresholds: Thresholds) {
    k == 2 ==> Commits(Classify(sight.reading, thresholds).payload).Some?
  }

  // Whether the state has lasted long enough to be said: two readings in a row
  // for an unreachable surface, half an hour for a split.
  predicate Lasts(axis: Axis, now: real) {
    && (axis.state == Some(Unreachable) ==> axis.run >= UNREACHABLE_AFTER_READINGS)
    && (axis.state == Some(Split) ==> axis.since.Some? && now - axis.since.value >= SPLIT_AFTER_S)
  }

  predicate Belongs(k: nat, axis: Axis) {
    && (axis.state.Some? ==> axis.state.value in StatesOf(k))
    && (axis.announced.Some? ==> axis.announced.value in StatesOf(k))
  }

  // What a decision comes to, on every axis alike.
  ghost predicate Decides(k: nat, was: Axis, decision: Decision, now: real) {
    var axis, message := decision.0, decision.1;
    && Belongs(k, axis) && axis.state.Some?
    && axis.announced == was.announced && axis.spokeAt == was.spokeAt
    && (axis.state.value in Repeats(k) ==>
          (message.Some? <==>
           Lasts(axis, now) && RepeatDue(was, axis.state.value, now, Interval(axis.state.value, axis.seen))))
    && (axis.state.value !in Repeats(k) ==>
          (message.Some? <==> was.announced.Some? && was.announced.value in Repeats(k)))
  }

  // The three axes follow one rule: a lasting trouble is said unless it was
  // said within its interval, and its end is said exactly to whoever was told.
  lemma {:induction false} EveryAxisDecidesAlike(axes: seq<Axis>, sight: Sight, thresholds: Thresholds, k: nat)
    requires |axes| == AXES && k < AXES && Belongs(k, axes[k]) && Sees(k, sight, thresholds)
    ensures Decides(k, axes[k], Decisions(axes, sight, thresholds)[k], sight.now)
  {
    StrictOrUnreachable(sight.reading, thresholds);
    hide Classify, Commits, IsWhole;
    if k == 0 {
      var verdict := Classify(sight.reading, thresholds);
      var decision := Decide(verdict, axes[0], sight.now);
      assert decision == Decisions(axes, sight, thresholds)[k];
    } else if k == 1 {
    } else {
    }
  }

  // An axis that saw nothing keeps its history and says nothing.
  lemma {:induction false} UnseenChangesNothing(axes: seq<Axis>, sight: Sight, thresholds: Thresholds, k: nat)
    requires |axes| == AXES && k < AXES && !Sees(k, sight, thresholds)
    ensures Decisions(axes, sight, thresholds)[k] == (axes[k], None)
  {
    hide Classify, Commits, Decide, DecideDelivery;
  }

  // What a human knows of an axis once a poll's message, if any, was delivered.
  ghost predicate Informed(k: nat, was: Axis, axis: Axis, now: real) {
    axis.state.Some?
    && if axis.state.value !in Repeats(k) then
         axis.announced.None? || axis.announced.value !in Repeats(k)
       else if Lasts(axis, now) then axis.announced == axis.state
       else axis.announced == was.announced
  }

  lemma {:induction false} DeliveredInforms(
    axes: seq<Axis>, sight: Sight, thresholds: Thresholds, k: nat, fate: Fate)
    requires |axes| == AXES && k < AXES && Belongs(k, axes[k]) && Sees(k, sight, thresholds)
    requires Befits(Decisions(axes, sight, thresholds)[k], fate, sight.now) && fate != Lost
    ensures Informed(k, axes[k], Kept(Decisions(axes, sight, thresholds)[k], fate), sight.now)
  {
    hide Decisions;
    EveryAxisDecidesAlike(axes, sight, thresholds, k);
  }

  // ----- a message that was lost -----

  // The same message, but for how long what it says has lasted.
  predicate SaysTheSame(first: Message, second: Message) {
    match first
    case Page(fault, _) => second.Page? && second.fault == fault
    case SplitPage(api, worker, _) => second.SplitPage? && second.api == api && second.worker == worker
    case _ => second == first
  }

  // A message nobody got leaves what a human knows where it was, and the same
  // reading, any time later, says it again.
  lemma {:induction false} LostIsSaidAgain(
    axes: seq<Axis>, sight: Sight, thresholds: Thresholds, k: nat, next: seq<Axis>, later: real)
    requires |axes| == |next| == AXES && k < AXES && later >= sight.now
    requires
      var decision := Decisions(axes, sight, thresholds)[k];
      decision.1.Some? && next[k] == Kept(decision, Lost)
    ensures next[k].announced == axes[k].announced && next[k].spokeAt == axes[k].spokeAt
    ensures
      var again := Decisions(next, sight.(now := later), thresholds)[k].1;
      again.Some? && SaysTheSame(Decisions(axes, sight, thresholds)[k].1.value, again.value)
  {
    hide Classify, Commits;
    if k == 0 {
      var verdict := Classify(sight.reading, thresholds);
      assert next[0] == Decide(verdict, axes[0], sight.now).0;
    } else if k == 1 {
    } else {
    }
  }
}
