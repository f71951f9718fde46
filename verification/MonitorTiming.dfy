// When the monitor speaks, over whole runs of polls.

module MonitorTiming {
  import opened Chars
  import opened SchedulingHealth
  import opened Monitor
  import opened MonitorLaws
  import opened MonitorRuns

  function AxisAt(log: seq<Event>, i: nat, thresholds: Thresholds, k: nat): Axis
    requires i < |log| && k < AXES
  {
    After(log[..i + 1], thresholds)[k]
  }

  lemma {:induction false} ToldByPoll(log: seq<Event>, i: nat, thresholds: Thresholds, k: nat)
    requires Runs(log, thresholds) && i < |log| && k < AXES && log[i].fates[k].Told?
    ensures StateAt(log, i, thresholds, k).Some? && log[i].fates[k].at > 0.0
  {
    hide After, DecidedAt, Next;
    assert Befits(DecidedAt(log, i, thresholds, k), log[i].fates[k], log[i].sight.now);
    assert log[i] in log;
    RunsBefore(log, i + 1, thresholds);
    var upTo := log[..i + 1];
    assert upTo[|upTo| - 1] == log[i];
    LastPollTells(upTo, thresholds, k);
  }

  // The message last told before poll `j`, as the state file has it.
  lemma {:induction false} LastToldIsKept(log: seq<Event>, i: nat, j: nat, thresholds: Thresholds, k: nat)
    requires Runs(log, thresholds) && j <= |log| && k < AXES && LastTold(log[..j], i, k)
    ensures
      var axis := After(log[..j], thresholds)[k];
      axis.announced == StateAt(log, i, thresholds, k) && axis.announced.Some?
      && axis.spokeAt == log[i].fates[k].at > 0.0
  {
    hide After, Runs, DecidedAt, Next;
    var before := log[..j];
    assert before[i] == log[i];
    ToldByPoll(log, i, thresholds, k);
    RunsBefore(log, j, thresholds);
    KnowsTheLog(before, thresholds, k);
    var axis := After(before, thresholds)[k];
    if axis.announced.Some? {
      var last: nat :|
        LastTold(before, last, k) && axis.announced == StateAt(before, last, thresholds, k)
        && axis.spokeAt == before[last].fates[k].at;
      assert last == i;
      assert before[..i + 1] == log[..i + 1];
    }
  }

  lemma {:induction false} KnownWasTold(log: seq<Event>, j: nat, thresholds: Thresholds, k: nat)
    requires Runs(log, thresholds) && j <= |log| && k < AXES
    requires After(log[..j], thresholds)[k].announced.Some?
    ensures exists i: nat :: LastTold(log[..j], i, k)
  {
    RunsBefore(log, j, thresholds);
    KnowsTheLog(log[..j], thresholds, k);
  }

  // The one rule, at poll `j` of a run.
  lemma {:induction false} DecidedAlike(log: seq<Event>, j: nat, thresholds: Thresholds, k: nat)
    requires Runs(log, thresholds) && j < |log| && k < AXES && Sees(k, log[j].sight, thresholds)
    ensures Decides(k, After(log[..j], thresholds)[k], DecidedAt(log, j, thresholds, k), log[j].sight.now)
    ensures Befits(DecidedAt(log, j, thresholds, k), log[j].fates[k], log[j].sight.now)
    ensures
      var axis, decided := AxisAt(log, j, thresholds, k), DecidedAt(log, j, thresholds, k).0;
      axis.state == decided.state && axis.run == decided.run && axis.since == decided.since
      && axis.seen == decided.seen
  {
    KeptAsDecided(log, j, thresholds, k);
    hide Decisions, Decides, Belongs, Sees, Befits, After;
    AxesBelong(log[..j], thresholds, k);
    EveryAxisDecidesAlike(After(log[..j], thresholds), log[j].sight, thresholds, k);
    assert Befits(DecidedAt(log, j, thresholds, k), log[j].fates[k], log[j].sight.now);
  }

  lemma {:induction false} KeptAsDecided(log: seq<Event>, j: nat, thresholds: Thresholds, k: nat)
    requires j < |log| && k < AXES
    ensures AxisAt(log, j, thresholds, k) == Kept(DecidedAt(log, j, thresholds, k), log[j].fates[k])
    ensures
      var axis, decided := AxisAt(log, j, thresholds, k), DecidedAt(log, j, thresholds, k).0;
      axis.state == decided.state && axis.run == decided.run && axis.since == decided.since
      && axis.seen == decided.seen
  {
    hide Decisions;
    assert log[..j + 1][..j] == log[..j];
  }

  // ----- how far apart -----

  // A trouble told at `i` is not said again within its interval.
  lemma {:induction false} SaidApart(
    log: seq<Event>, i: nat, j: nat, thresholds: Thresholds, k: nat, trouble: State)
    requires Runs(log, thresholds) && j < |log| && k < AXES && Sees(k, log[j].sight, thresholds)
    requires LastTold(log[..j], i, k) && trouble in Repeats(k)
    requires StateAt(log, i, thresholds, k) == AxisAt(log, j, thresholds, k).state == Some(trouble)
    requires log[j].fates[k] != Silent
    ensures
      log[j].sight.now - log[i].fates[k].at >= Interval(trouble, AxisAt(log, j, thresholds, k).seen)
  {
    LastToldIsKept(log, i, j, thresholds, k);
    DecidedAlike(log, j, thresholds, k);
    hide After, DecidedAt, Repeats, Interval, Lasts, Runs;
  }

  // A lasting trouble a poll is silent about was told within its interval.
  lemma {:induction false} SilenceIsShort(
    log: seq<Event>, j: nat, thresholds: Thresholds, k: nat, trouble: State) returns (i: nat)
    requires Runs(log, thresholds) && j < |log| && k < AXES && Sees(k, log[j].sight, thresholds)
    requires AxisAt(log, j, thresholds, k).state == Some(trouble) && trouble in Repeats(k)
    requires Lasts(AxisAt(log, j, thresholds, k), log[j].sight.now) && log[j].fates[k] == Silent
    ensures LastTold(log[..j], i, k) && StateAt(log, i, thresholds, k) == Some(trouble)
    ensures
      log[j].sight.now - log[i].fates[k].at < Interval(trouble, AxisAt(log, j, thresholds, k).seen)
  {
    DecidedAlike(log, j, thresholds, k);
    var was := After(log[..j], thresholds)[k];
    var axis := AxisAt(log, j, thresholds, k);
    assert !RepeatDue(was, trouble, log[j].sight.now, Interval(trouble, axis.seen)) by {
      hide After, DecidedAt, Repeats, Interval, Runs, RepeatDue;
    }
    KnownWasTold(log, j, thresholds, k);
    i :| LastTold(log[..j], i, k);
    LastToldIsKept(log, i, j, thresholds, k);
  }

  // Poll after poll of one lasting trouble, told when due.
  ghost predicate Unbroken(log: seq<Event>, i: nat, j: nat, thresholds: Thresholds, k: nat, trouble: State)
    requires k < AXES && j < |log|
  {
    forall m :: i <= m <= j ==>
      && Sees(k, log[m].sight, thresholds)
      && AxisAt(log, m, thresholds, k).state == Some(trouble)
      && Lasts(AxisAt(log, m, thresholds, k), log[m].sight.now)
  }

  // In an unbroken, delivered run of one trouble a human hears of it no sooner
  // than its interval after the last time, and no later than that and one poll
  // gap and one delivery more.
  lemma {:induction false} HeardInTime(
    log: seq<Event>, i: nat, j: nat, thresholds: Thresholds, k: nat, trouble: State, gap: real, delay: real)
    requires Runs(log, thresholds) && i < j < |log| && k < AXES && trouble in Repeats(k)
    requires Unbroken(log, i, j, thresholds, k, trouble)
    requires log[i].fates[k].Told? && log[j].fates[k].Told?
    requires forall m :: i < m < j ==> log[m].fates[k] == Silent
    requires log[j].sight.now - log[j - 1].sight.now <= gap
    requires log[j].fates[k].at - log[j].sight.now <= delay
    ensures
      var interval := Interval(trouble, AxisAt(log, j, thresholds, k).seen);
      interval <= log[j].fates[k].at - log[i].fates[k].at < interval + gap + delay
  {
    hide AxisAt, Runs, Lasts, Repeats, Sees, StateAt, Interval, Befits;
    assert LastTold(log[..j], i, k);
    StateIsAxis(log, i, thresholds, k);
    SaidApart(log, i, j, thresholds, k, trouble);
    ToldAfterDeciding(log, j, thresholds, k);
    NotLate(log, i, j, thresholds, k, trouble);
  }

  lemma {:induction false} ToldAfterDeciding(log: seq<Event>, j: nat, thresholds: Thresholds, k: nat)
    requires Runs(log, thresholds) && j < |log| && k < AXES && log[j].fates[k].Told?
    ensures log[j].fates[k].at >= log[j].sight.now
  {
    hide DecidedAt;
    assert Befits(DecidedAt(log, j, thresholds, k), log[j].fates[k], log[j].sight.now);
  }

  lemma {:induction false} NotLate(
    log: seq<Event>, i: nat, j: nat, thresholds: Thresholds, k: nat, trouble: State)
    requires Runs(log, thresholds) && i < j < |log| && k < AXES && trouble in Repeats(k)
    requires Unbroken(log, i, j, thresholds, k, trouble) && log[i].fates[k].Told?
    requires forall m :: i < m < j ==> log[m].fates[k] == Silent
    ensures
      log[j - 1].sight.now - log[i].fates[k].at < Interval(trouble, AxisAt(log, j, thresholds, k).seen)
  {
    hide AxisAt, Runs, Lasts, Repeats, Sees, StateAt, Interval, Befits;
    if i == j - 1 {
      ToldAfterDeciding(log, i, thresholds, k);
      IntervalsArePositive(trouble, AxisAt(log, j, thresholds, k).seen);
    } else {
      var last := SilenceIsShort(log, j - 1, thresholds, k, trouble);
      assert log[..j - 1][i] == log[i];
      assert last == i;
      IntervalStays(log, j, thresholds, k, trouble);
    }
  }

  lemma {:induction false} StateIsAxis(log: seq<Event>, i: nat, thresholds: Thresholds, k: nat)
    requires i < |log| && k < AXES
    ensures StateAt(log, i, thresholds, k) == AxisAt(log, i, thresholds, k).state
  {
  }

  lemma {:induction false} IntervalsArePositive(state: State, seen: nat)
    ensures Interval(state, seen) > 0.0
  {
  }

  // A reading without a destination leaves `max_active_seen`, and so the
  // interval its notice repeats at, alone.
  lemma {:induction false} IntervalStays(log: seq<Event>, j: nat, thresholds: Thresholds, k: nat, trouble: State)
    requires 0 < j < |log| && k < AXES && AxisAt(log, j, thresholds, k).state == Some(trouble)
    requires trouble in Repeats(k)
    ensures
      Interval(trouble, AxisAt(log, j, thresholds, k).seen) ==
      Interval(trouble, AxisAt(log, j - 1, thresholds, k).seen)
  {
    assert log[..j + 1][..j] == log[..j];
    if trouble in {NoSignal, WorkerUnknown} {
      var verdict := Classify(log[j].sight.reading, thresholds);
      CalmHasEvidence(log[j].sight.reading, thresholds);
      hide Classify, Commits;
      assert k == 0;
      assert AxisAt(log, j, thresholds, 0).state == Some(verdict.state);
    }
  }

  // ----- how a trouble's end is said -----

  // A calm reading speaks exactly when the last thing a human was told on that
  // axis was a trouble: RECOVERED, SIGNAL ACQUIRED and RESOLVED close what was
  // said, and nothing else.
  lemma {:induction false} EndIsSaidToWhoWasTold(log: seq<Event>, j: nat, thresholds: Thresholds, k: nat)
    requires Runs(log, thresholds) && j < |log| && k < AXES && Sees(k, log[j].sight, thresholds)
    requires
      DecidedAt(log, j, thresholds, k).0.state.Some?
      && DecidedAt(log, j, thresholds, k).0.state.value !in Repeats(k)
    ensures
      DecidedAt(log, j, thresholds, k).1.Some? <==>
      exists i: nat ::
        LastTold(log[..j], i, k) && StateAt(log, i, thresholds, k).Some?
        && StateAt(log, i, thresholds, k).value in Repeats(k)
  {
    hide Runs, Repeats;
    DecidedAlike(log, j, thresholds, k);
    forall i: nat | LastTold(log[..j], i, k)
      ensures After(log[..j], thresholds)[k].announced == StateAt(log, i, thresholds, k)
    {
      LastToldIsKept(log, i, j, thresholds, k);
    }
    if After(log[..j], thresholds)[k].announced.Some? {
      KnownWasTold(log, j, thresholds, k);
    }
    hide After, DecidedAt, StateAt;
  }

  // ----- a version split -----

  predicate SplitRead(log: seq<Event>, i: nat, thresholds: Thresholds)
    requires i < |log|
  {
    var pair := Commits(Classify(log[i].sight.reading, thresholds).payload);
    pair.Some? && pair.value.0 != pair.value.1
  }

  predicate MatchRead(log: seq<Event>, i: nat, thresholds: Thresholds)
    requires i < |log|
  {
    var pair := Commits(Classify(log[i].sight.reading, thresholds).payload);
    pair.Some? && pair.value.0 == pair.value.1
  }

  // The split was first read at `i`, and the two have not been seen to match since.
  ghost predicate SplitFrom(log: seq<Event>, i: nat, thresholds: Thresholds) {
    && i < |log| && SplitRead(log, i, thresholds)
    && (forall m :: i <= m < |log| ==> !MatchRead(log, m, thresholds))
    && (forall m :: 0 <= m < i && SplitRead(log, m, thresholds) ==>
          exists n :: m < n < i && MatchRead(log, n, thresholds))
  }

  ghost predicate SplitIsOver(log: seq<Event>, thresholds: Thresholds) {
    forall m :: 0 <= m < |log| && SplitRead(log, m, thresholds) ==>
      exists n :: m < n < |log| && MatchRead(log, n, thresholds)
  }

  // `since` is when the split that still stands was first read.
  lemma {:induction false} SinceIsTheFirst(log: seq<Event>, thresholds: Thresholds)
    ensures
      var axis := After(log, thresholds)[2];
      if axis.state == Some(Split) then
        axis.since.Some? && exists i: nat ::
          SplitFrom(log, i, thresholds) && log[i].sight.now == axis.since.value
      else SplitIsOver(log, thresholds)
    decreases |log|
  {
    hide SplitIsOver, MatchRead, SplitRead, After;
    if log == [] {
      SplitNotYet(thresholds);
    } else {
      var n := |log| - 1;
      var front := log[..n];
      SinceIsTheFirst(front, thresholds);
      SplitStep(log, thresholds);
      SameReads(log, thresholds);
      var was := After(front, thresholds)[2];
      if was.state == Some(Split) {
        var i: nat :| SplitFrom(front, i, thresholds) && front[i].sight.now == was.since.value;
        SplitGoesOn(log, i, thresholds);
        if !MatchRead(log, n, thresholds) {
          assert front[i] == log[i];
          assert SplitFrom(log, i, thresholds) && log[i].sight.now == After(log, thresholds)[2].since.value;
        }
      } else {
        SplitBegins(log, thresholds);
      }
    }
  }

  lemma {:induction false} SplitNotYet(thresholds: Thresholds)
    ensures SplitIsOver([], thresholds) && After([], thresholds)[2].state == None
  {
  }

  lemma {:induction false} SplitStep(log: seq<Event>, thresholds: Thresholds)
    requires log != []
    ensures
      var n := |log| - 1;
      var was, axis := After(log[..n], thresholds)[2], After(log, thresholds)[2];
      if SplitRead(log, n, thresholds) then
        axis.state == Some(Split) && axis.since.Some?
        && axis.since.value ==
           if was.state == Some(Split) && was.since.Some? then was.since.value else log[n].sight.now
      else if MatchRead(log, n, thresholds) then axis.state == Some(Same)
      else axis.state == was.state && axis.since == was.since
  {
    hide Classify, Commits;
  }

  lemma {:induction false} SplitGoesOn(log: seq<Event>, i: nat, thresholds: Thresholds)
    requires log != [] && SplitFrom(log[..|log| - 1], i, thresholds)
    ensures
      if MatchRead(log, |log| - 1, thresholds) then SplitIsOver(log, thresholds)
      else SplitFrom(log, i, thresholds)
  {
    var n := |log| - 1;
    SameReads(log, thresholds);
    hide MatchRead, SplitRead;
  }

  lemma {:induction false} SplitBegins(log: seq<Event>, thresholds: Thresholds)
    requires log != [] && SplitIsOver(log[..|log| - 1], thresholds)
    ensures
      if SplitRead(log, |log| - 1, thresholds) then SplitFrom(log, |log| - 1, thresholds)
      else SplitIsOver(log, thresholds)
  {
    SameReads(log, thresholds);
    assert !(SplitRead(log, |log| - 1, thresholds) && MatchRead(log, |log| - 1, thresholds));
    hide MatchRead, SplitRead;
  }

  lemma {:induction false} SameReads(log: seq<Event>, thresholds: Thresholds)
    requires log != []
    ensures
      var front := log[..|log| - 1];
      forall m :: 0 <= m < |front| ==>
        SplitRead(front, m, thresholds) == SplitRead(log, m, thresholds)
        && MatchRead(front, m, thresholds) == MatchRead(log, m, thresholds)
    ensures !SplitRead(log, |log| - 1, thresholds) || !MatchRead(log, |log| - 1, thresholds)
  {
    hide Classify, Commits;
  }

  // A split pages only once it has stood, unmatched by any reading, for
  // `SPLIT_AFTER_S`.
  lemma {:induction false} SplitPagesLate(log: seq<Event>, j: nat, thresholds: Thresholds) returns (i: nat)
    requires j < |log| && DecidedAt(log, j, thresholds, 2).1.Some?
    requires DecidedAt(log, j, thresholds, 2).1.value.SplitPage?
    ensures i <= j && SplitFrom(log[..j + 1], i, thresholds)
    ensures log[j].sight.now - log[i].sight.now >= SPLIT_AFTER_S
  {
    var upTo := log[..j + 1];
    SinceIsTheFirst(upTo, thresholds);
    assert upTo[..j] == log[..j];
    var axis := After(upTo, thresholds)[2];
    assert axis.state == Some(Split) && axis.since == DecidedAt(log, j, thresholds, 2).0.since by {
      hide Classify, Commits;
    }
    assert log[j].sight.now - axis.since.value >= SPLIT_AFTER_S by {
      hide Classify, Commits;
    }
    hide After, DecidedAt;
    i :| SplitFrom(upTo, i, thresholds) && upTo[i].sight.now == axis.since.value;
  }
}
