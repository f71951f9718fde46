// The scheduling monitor: what each axis says, and one poll of all three.

module Monitor {
  import opened Chars
  import opened JsonValues
  import opened SchedulingHealth

  const REALERT_AFTER_S := 21600.0
  const RENOTICE_NO_SIGNAL_AFTER_S := 604800.0
  const RENOTICE_LOST_DESTINATIONS_AFTER_S := 86400.0
  const UNREACHABLE_AFTER_READINGS := 2
  const SPLIT_AFTER_S := 1800.0
  const RENOTICE_SPLIT_AFTER_S := 86400.0

  // What the state file keeps of one axis. `state` is what was last read,
  // `announced` what a human was last told, at `spokeAt` (0 for never).
  datatype Axis = Axis(
    state: Option<State>,
    run: nat,
    observedAt: Option<real>,
    announced: Option<State>,
    spokeAt: real,
    seen: nat,
    since: Option<real>)

  // A first run, or a state file that cannot be read.
  const NO_HISTORY := Axis(None, 0, None, None, 0.0, 0, None)

  // A fault the human was told about, closed by a reading that can see nothing.
  datatype Closing = Plain | StallGone | RecoveredFrom(state: State)

  datatype Message =
    | Page(fault: State, run: nat)
    | LostDestinations(had: nat, closing: Closing)
    | NoCoverage(closing: Closing)
    | NothingToWatch(closing: Closing)
    | Recovered
    | SignalAcquired
    | ReadsAgain
    | SplitPage(api: string, worker: string, minutes: int)
    | Resolved(api: string)

  type Decision = (Axis, Option<Message>)

  // A positive whole number, else 0.
  function CountOf(value: Json): nat {
    if value.Number? && value.value > 0 then value.value else 0
  }

  function Announce(axis: Axis, now: real): Axis {
    axis.(announced := axis.state, spokeAt := now)
  }

  function RunOf(prior: Axis, state: State): nat {
    if prior.state == Some(state) then prior.run + 1 else 1
  }

  predicate RepeatDue(prior: Axis, told: State, now: real, interval: real) {
    var spokeAt := if prior.announced == Some(told) then prior.spokeAt else 0.0;
    spokeAt == 0.0 || now - spokeAt >= interval
  }

  function ClosingOf(announced: Option<State>): Closing {
    if announced == Some(Stalled) then StallGone
    else if announced == Some(Unreachable) || announced == Some(WorkerDown) then RecoveredFrom(announced.value)
    else Plain
  }

  function Decide(verdict: Verdict, prior: Axis, now: real): Decision {
    var announced := prior.announced;
    var run := RunOf(prior, verdict.state);
    var count := CountOf(Get(verdict.payload, "accounts_active"));
    var seen := if prior.seen >= count then prior.seen else count;
    var axis := Axis(Some(verdict.state), run, Some(now), announced, prior.spokeAt, seen, None);
    var state := verdict.state;
    var message :=
      if state == Unreachable then
        if run < UNREACHABLE_AFTER_READINGS || !RepeatDue(prior, state, now, REALERT_AFTER_S) then None
        else Some(Page(state, run))
      else if state == Stalled || state == WorkerDown then
        if !RepeatDue(prior, state, now, REALERT_AFTER_S) then None else Some(Page(state, run))
      else if (state == WorkerUnknown || state == NoSignal) && seen > 0 then
        if !RepeatDue(prior, state, now, RENOTICE_LOST_DESTINATIONS_AFTER_S) then None
        else Some(LostDestinations(seen, ClosingOf(announced)))
      else if state == WorkerUnknown then
        if !RepeatDue(prior, state, now, RENOTICE_NO_SIGNAL_AFTER_S) then None
        else Some(NoCoverage(ClosingOf(announced)))
      else if state == NoSignal then
        if !RepeatDue(prior, state, now, RENOTICE_NO_SIGNAL_AFTER_S) then None
        else Some(NothingToWatch(ClosingOf(announced)))
      else if announced in {Some(Stalled), Some(Unreachable), Some(WorkerDown)} then Some(Recovered)
      else if announced in {Some(NoSignal), Some(WorkerUnknown)} then Some(SignalAcquired)
      else None;
    (axis, message)
  }

  predicate ApiUnreachable(status: int) {
    status == 0 || status >= 500
  }

  function DecideDelivery(state: State, prior: Axis, now: real, apiDown: bool): Decision {
    var held := apiDown && state == Unreachable;
    var run := if held then 0 else RunOf(prior, state);
    var axis := Axis(Some(state), run, Some(now), prior.announced, prior.spokeAt, 0, None);
    var message :=
      if state == Unreachable then
        if run < UNREACHABLE_AFTER_READINGS || !RepeatDue(prior, state, now, REALERT_AFTER_S) then None
        else Some(Page(state, run))
      else if state == Failing then
        if !RepeatDue(prior, state, now, REALERT_AFTER_S) then None else Some(Page(state, run))
      else if prior.announced == Some(Failing) then Some(Recovered)
      else if prior.announced == Some(Unreachable) then Some(ReadsAgain)
      else None;
    (axis, message)
  }

  function DecideSplit(payload: map<string, Json>, prior: Axis, now: real): Decision {
    match Commits(payload)
    case None => (prior, None)
    case Some((api, worker)) =>
      var carried := Axis(None, 0, Some(now), prior.announced, prior.spokeAt, 0, None);
      if api == worker then
        (carried.(state := Some(Same)), if prior.announced == Some(Split) then Some(Resolved(api)) else None)
      else
        var since := if prior.state == Some(Split) && prior.since.Some? then prior.since.value else now;
        var axis := carried.(state := Some(Split), since := Some(since));
        if now - since < SPLIT_AFTER_S then (axis, None)
        else if !RepeatDue(prior, Split, now, RENOTICE_SPLIT_AFTER_S) then (axis, None)
        else (axis, Some(SplitPage(api, worker, ((now - since) / 60.0).Floor)))
  }

  // ----- one poll -----

  type DeliveryState = state: State | state in {Delivering, Quiet, Failing, Unreachable} witness Quiet

  // What one poll finds: the scheduling reading, delivery's state, the time.
  datatype Sight = Sight(reading: Reading, delivery: DeliveryState, now: real)

  // What became of an axis's message: there was none, a human got it at a
  // time, or it could not be delivered.
  datatype Fate = Silent | Told(at: real) | Lost

  datatype Report = Report(axes: seq<Axis>, notifyFailedAt: Option<real>)

  const AXES := 3

  function Decisions(axes: seq<Axis>, sight: Sight, thresholds: Thresholds): (decisions: seq<Decision>)
    requires |axes| == AXES
    ensures |decisions| == AXES
  {
    var verdict := Classify(sight.reading, thresholds);
    [ Decide(verdict, axes[0], sight.now),
      DecideDelivery(sight.delivery, axes[1], sight.now, ApiUnreachable(sight.reading.status)),
      DecideSplit(verdict.payload, axes[2], sight.now) ]
  }

  // An axis as it is kept, once its message met its fate.
  function Kept(decision: Decision, fate: Fate): Axis {
    if fate.Told? then Announce(decision.0, fate.at) else decision.0
  }

  // A fate fits: silence exactly when there was nothing to say, and no message
  // is told before the poll that decided on it.
  predicate Befits(decision: Decision, fate: Fate, now: real) {
    (fate.Silent? <==> decision.1.None?) && (fate.Told? ==> fate.at >= now)
  }

  // One poll: every axis kept as its own message's fate decides.
  predicate Polled(axes: seq<Axis>, sight: Sight, thresholds: Thresholds, fates: seq<Fate>, next: seq<Axis>) {
    && |axes| == |fates| == |next| == AXES
    && forall k :: 0 <= k < AXES ==>
         && Befits(Decisions(axes, sight, thresholds)[k], fates[k], sight.now)
         && next[k] == Kept(Decisions(axes, sight, thresholds)[k], fates[k])
  }

  const EXIT_QUIET := 0
  const EXIT_SPOKE := 10
  const EXIT_NOTIFY_FAILED := 11

  // The notify command, which may fail in any way it likes.
  method Notify(message: Message) returns (delivered: bool)
  {
    delivered := *;
  }

  method Clock(after: real) returns (now: real)
    ensures now >= after
  {
    now := *;
    if now < after {
      now := after;
    }
  }

  method Poll(axes: seq<Axis>, sight: Sight, thresholds: Thresholds, hasCommand: bool)
    returns (report: Report, fates: seq<Fate>, exit: int)
    requires |axes| == AXES
    ensures Polled(axes, sight, thresholds, fates, report.axes)
    ensures !hasCommand ==> Lost !in fates
    ensures report.notifyFailedAt.Some? <==> Lost in fates
    ensures exit == EXIT_NOTIFY_FAILED <==> Lost in fates
    ensures exit == EXIT_QUIET <==> forall fate <- fates :: fate == Silent
    ensures exit in {EXIT_QUIET, EXIT_SPOKE, EXIT_NOTIFY_FAILED}
  {
    hide Decisions;
    var decisions := Decisions(axes, sight, thresholds);
    var next := [decisions[0].0, decisions[1].0, decisions[2].0];
    var spoke, failed := false, false;
    fates := [];
    for k := 0 to AXES
      invariant |next| == AXES && |fates| == k
      invariant forall j :: 0 <= j < k ==>
        Befits(decisions[j], fates[j], sight.now) && next[j] == Kept(decisions[j], fates[j])
      invariant forall j :: k <= j < AXES ==> next[j] == decisions[j].0
      invariant failed <==> Lost in fates
      invariant spoke <==> exists j :: 0 <= j < k && fates[j].Told?
      invariant !hasCommand ==> !failed
    {
      var message := decisions[k].1;
      if message.None? {
        fates := fates + [Silent];
        continue;
      }
      var delivered := true;
      if hasCommand {
        delivered := Notify(message.value);
      }
      if delivered {
        var at := Clock(sight.now);
        next := next[k := Announce(next[k], at)];
        fates := fates + [Told(at)];
        spoke := true;
      } else {
        fates := fates + [Lost];
        failed := true;
      }
    }
    var failedAt: Option<real> := None;
    if failed {
      var at := Clock(sight.now);
      failedAt := Some(at);
    }
    report := Report(next, failedAt);
    exit := if failed then EXIT_NOTIFY_FAILED else if spoke then EXIT_SPOKE else EXIT_QUIET;
    assert forall j :: 0 <= j < AXES ==> fates[j] in fates;
    assert forall fate :: fate in fates ==> exists j :: 0 <= j < AXES && fates[j] == fate;
  }
}
