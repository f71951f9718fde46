// Which message a reading sends: what each one says of the axis that sent it and of
// what the human was last told, and that there is never a choice.

module MonitorMessages {
  import opened Chars
  import opened SchedulingHealth
  import opened Monitor
  import opened MonitorLaws
  import opened MonitorRuns

  // A closing names the fault the human was last told of, if that was one.
  predicate Closes(closing: Closing, told: Option<State>) {
    match closing
    case StallGone => told == Some(Stalled)
    case RecoveredFrom(fault) => told == Some(fault) && fault in {Unreachable, WorkerDown}
    case Plain => told !in {Some(Stalled), Some(Unreachable), Some(WorkerDown)}
  }

  // What an axis reads at a poll that can see what it judges.
  ghost predicate Reads(k: nat, axis: Axis, sight: Sight, thresholds: Thresholds) {
    match k
    case 0 => axis.state == Some(Classify(sight.reading, thresholds).state)
    case 1 => axis.state == Some(sight.delivery)
    case _ =>
      var pair := Commits(Classify(sight.reading, thresholds).payload);
      pair.Some? && axis.state == Some(if pair.value.0 == pair.value.1 then Same else Split)
  }

  // What `message` says is so: a page names the fault its own axis reads and how
  // many readings it has lasted; a notice of an estate that sees nothing says
  // whether destinations were lost and closes what was told; and a trouble's end
  // is said by a calm reading alone, for the trouble that was told.
  ghost predicate IsTrue(
    k: nat, message: Message, axis: Axis, told: Option<State>, sight: Sight, thresholds: Thresholds)
  {
    var state := axis.state;
    match message
    case Page(fault, run) =>
      && state == Some(fault) && run == axis.run
      && ((k == 0 && fault in {Unreachable, Stalled, WorkerDown}) || (k == 1 && fault in {Unreachable, Failing}))
    case LostDestinations(had, closing) =>
      k == 0 && state in {Some(WorkerUnknown), Some(NoSignal)} && had == axis.seen > 0 && Closes(closing, told)
    case NoCoverage(closing) =>
      k == 0 && state == Some(WorkerUnknown) && axis.seen == 0 && Closes(closing, told)
    case NothingToWatch(closing) =>
      k == 0 && state == Some(NoSignal) && axis.seen == 0 && Closes(closing, told)
    case Recovered =>
      || (k == 0 && state == Some(Healthy) && told in {Some(Stalled), Some(Unreachable), Some(WorkerDown)})
      || (k == 1 && state in {Some(Delivering), Some(Quiet)} && told == Some(Failing))
    case SignalAcquired => k == 0 && state == Some(Healthy) && told in {Some(NoSignal), Some(WorkerUnknown)}
    case ReadsAgain => k == 1 && state in {Some(Delivering), Some(Quiet)} && told == Some(Unreachable)
    case SplitPage(api, worker, minutes) =>
      && k == 2 && state == Some(Split) && axis.since.Some?
      && Commits(Classify(sight.reading, thresholds).payload) == Some((api, worker)) && api != worker
      && minutes as real <= (sight.now - axis.since.value) / 60.0 < minutes as real + 1.0
    case Resolved(commit) =>
      && k == 2 && state == Some(Same) && told == Some(Split)
      && Commits(Classify(sight.reading, thresholds).payload) == Some((commit, commit))
  }

  // Of any two messages that are true of an axis, there is but one.
  lemma {:induction false} OneIsTrue(
    k: nat, first: Message, second: Message, axis: Axis, told: Option<State>, sight: Sight, thresholds: Thresholds)
    requires IsTrue(k, first, axis, told, sight, thresholds) && IsTrue(k, second, axis, told, sight, thresholds)
    ensures first == second
  {
    hide Classify, Commits;
  }

  // Whatever an axis decides to say is true of what it reads and of what was told,
  // and it reads what its surface shows.
  lemma {:induction false} MessageIsTrue(axes: seq<Axis>, sight: Sight, thresholds: Thresholds, k: nat)
    requires |axes| == AXES && k < AXES && Belongs(k, axes[k]) && Sees(k, sight, thresholds)
    ensures
      var decision := Decisions(axes, sight, thresholds)[k];
      && Reads(k, decision.0, sight, thresholds)
      && (decision.1.Some? ==>
            IsTrue(k, decision.1.value, decision.0, axes[k].announced, sight, thresholds))
  {
    StrictOrUnreachable(sight.reading, thresholds);
    hide Classify, Commits, IsWhole, RepeatDue;
    var decisions := Decisions(axes, sight, thresholds);
    if k == 0 {
      var verdict := Classify(sight.reading, thresholds);
      assert decisions[0] == Decide(verdict, axes[0], sight.now);
    } else if k == 1 {
      var down := ApiUnreachable(sight.reading.status);
      assert decisions[1] == DecideDelivery(sight.delivery, axes[1], sight.now, down);
    } else {
      SplitIsTrue(axes[2], sight, thresholds);
    }
  }

  lemma {:induction false} SplitIsTrue(prior: Axis, sight: Sight, thresholds: Thresholds)
    requires Belongs(2, prior) && Sees(2, sight, thresholds)
    ensures
      var decision := DecideSplit(Classify(sight.reading, thresholds).payload, prior, sight.now);
      && Reads(2, decision.0, sight, thresholds)
      && (decision.1.Some? ==>
            IsTrue(2, decision.1.value, decision.0, prior.announced, sight, thresholds))
  {
    hide Classify, Commits, RepeatDue;
  }

  // A poll that cannot see the two commits says nothing of them.
  lemma {:induction false} UnseenSaysNothing(axes: seq<Axis>, sight: Sight, thresholds: Thresholds, k: nat)
    requires |axes| == AXES && k < AXES && !Sees(k, sight, thresholds)
    ensures Decisions(axes, sight, thresholds)[k] == (axes[k], None)
  {
    hide Classify, Commits;
  }

  // ----- over every run -----

  // What a human was last told on an axis in a run of polls.
  ghost predicate WasLastTold(log: seq<Event>, thresholds: Thresholds, k: nat, told: Option<State>)
    requires k < AXES
  {
    if told.None? then forall i :: 0 <= i < |log| ==> !log[i].fates[k].Told?
    else exists i: nat :: LastTold(log, i, k) && told == StateAt(log, i, thresholds, k)
  }

  // A page's count is the length of the run of readings it ends.
  ghost predicate CountsTheRun(log: seq<Event>, thresholds: Thresholds, k: nat, fault: State, run: nat)
    requires k < 2 && log != []
  {
    && 1 <= run <= |log|
    && (forall i :: |log| - run <= i < |log| ==> ReadOn(log, i, thresholds, k) == Some(fault))
    && (run < |log| ==> ReadOn(log, |log| - run - 1, thresholds, k) != Some(fault))
  }

  // What a poll read on an axis; nothing for a delivery reading held while the API
  // is down.
  ghost function ReadOn(log: seq<Event>, i: nat, thresholds: Thresholds, k: nat): Option<State>
    requires i < |log| && k < 2
  {
    if k == 0 then Some(Classify(log[i].sight.reading, thresholds).state)
    else if ApiUnreachable(log[i].sight.reading.status) && log[i].sight.delivery == Unreachable then None
    else Some(log[i].sight.delivery)
  }

  // In every run of polls every message is true: of what its poll read, of how long
  // it has been read, and of what the human was last told before it.
  lemma {:induction false} EveryMessageIsTrue(log: seq<Event>, j: nat, thresholds: Thresholds, k: nat)
    returns (told: Option<State>)
    requires Runs(log, thresholds) && j < |log| && k < AXES && DecidedAt(log, j, thresholds, k).1.Some?
    ensures WasLastTold(log[..j], thresholds, k, told)
    ensures
      var axis, message := DecidedAt(log, j, thresholds, k).0, DecidedAt(log, j, thresholds, k).1.value;
      && Reads(k, axis, log[j].sight, thresholds)
      && IsTrue(k, message, axis, told, log[j].sight, thresholds)
      && (message.Page? ==> k < 2 && CountsTheRun(log[..j + 1], thresholds, k, message.fault, message.run))
  {
    hide Decisions, IsTrue, Reads, After, Runs;
    var was := After(log[..j], thresholds);
    told := was[k].announced;
    if !Sees(k, log[j].sight, thresholds) {
      UnseenSaysNothing(was, log[j].sight, thresholds, k);
    }
    AxesBelong(log[..j], thresholds, k);
    MessageIsTrue(was, log[j].sight, thresholds, k);
    RunsBefore(log, j, thresholds);
    KnowsTheLog(log[..j], thresholds, k);
    assert WasLastTold(log[..j], thresholds, k, told);
    var message := DecidedAt(log, j, thresholds, k).1.value;
    if message.Page? {
      PageIsOfItsAxis(k, message, DecidedAt(log, j, thresholds, k).0, told, log[j].sight, thresholds);
      PageCounts(log, j, thresholds, k, message);
    }
  }

  lemma {:induction false} PageIsOfItsAxis(
    k: nat, message: Message, axis: Axis, told: Option<State>, sight: Sight, thresholds: Thresholds)
    requires message.Page? && IsTrue(k, message, axis, told, sight, thresholds)
    ensures k < 2 && axis.state == Some(message.fault) && axis.run == message.run
  {
    hide Classify, Commits;
  }

  lemma {:induction false} PageCounts(
    log: seq<Event>, j: nat, thresholds: Thresholds, k: nat, message: Message)
    requires j < |log| && k < 2 && message.Page? && DecidedAt(log, j, thresholds, k).1 == Some(message)
    requires
      var axis := DecidedAt(log, j, thresholds, k).0;
      axis.state == Some(message.fault) && axis.run == message.run
    ensures CountsTheRun(log[..j + 1], thresholds, k, message.fault, message.run)
  {
    hide After, DecidedAt, CountsTheRun;
    KeptRun(log, j, thresholds, k);
    if k == 0 {
      SchedulingCounts(log[..j + 1], thresholds);
    } else {
      PageOfNoHeld(log, j, thresholds, message);
      DeliveryCounts(log[..j + 1], thresholds);
    }
  }

  lemma {:induction false} SchedulingCounts(log: seq<Event>, thresholds: Thresholds)
    requires log != []
    ensures
      var axis := After(log, thresholds)[0];
      axis.state.Some? && CountsTheRun(log, thresholds, 0, axis.state.value, axis.run)
  {
    hide After, Classify;
    RunIsTrailing(log, thresholds);
    var run, last := After(log, thresholds)[0].run, ReadAt(log, |log| - 1, thresholds);
    forall i | |log| - run <= i < |log| ensures ReadOn(log, i, thresholds, 0) == Some(last) {
      assert ReadAt(log, i, thresholds) == last;
    }
  }

  lemma {:induction false} DeliveryCounts(log: seq<Event>, thresholds: Thresholds)
    requires log != []
    ensures
      var axis := After(log, thresholds)[1];
      && axis.state.Some?
      && (axis.run > 0 ==> CountsTheRun(log, thresholds, 1, axis.state.value, axis.run))
  {
    hide After, Classify, ApiUnreachable;
    DeliveryRunIsTrailing(log, thresholds);
    var run, last := After(log, thresholds)[1].run, log[|log| - 1].sight.delivery;
    forall i | |log| - run <= i < |log| ensures ReadOn(log, i, thresholds, 1) == Some(last) {
      assert log[i].sight.delivery == last && !HeldAt(log, i);
    }
    if 0 < run < |log| {
      var i := |log| - run - 1;
      assert log[i].sight.delivery != last || HeldAt(log, i);
    }
  }

  lemma {:induction false} KeptRun(log: seq<Event>, j: nat, thresholds: Thresholds, k: nat)
    requires j < |log| && k < AXES
    ensures
      var axis, decided := After(log[..j + 1], thresholds)[k], DecidedAt(log, j, thresholds, k).0;
      axis.state == decided.state && axis.run == decided.run
  {
    hide Decisions;
    assert log[..j + 1][..j] == log[..j];
  }

  lemma {:induction false} PageOfNoHeld(log: seq<Event>, j: nat, thresholds: Thresholds, message: Message)
    requires j < |log| && message.Page? && DecidedAt(log, j, thresholds, 1).1 == Some(message)
    ensures message.run > 0
  {
    hide Classify, Decide, DecideSplit, RepeatDue;
  }
}
