// Whole runs of polls: what a human knows, and when they were told.

module MonitorRuns {
  import opened Chars
  import opened JsonValues
  import opened SchedulingHealth
  import opened Monitor
  import opened MonitorLaws

  // A poll and what became of its messages, one fate to an axis.
  datatype Entry = Entry(sight: Sight, fates: seq<Fate>)

  type Event = entry: Entry | |entry.fates| == AXES
    witness Entry(Sight(Reading(0, None), Quiet, 1.0), [Silent, Silent, Silent])

  function Next(axes: seq<Axis>, event: Event, thresholds: Thresholds): (next: seq<Axis>)
    requires |axes| == AXES
    ensures |next| == AXES
  {
    var decisions := Decisions(axes, event.sight, thresholds);
    seq(AXES, k requires 0 <= k < AXES => Kept(decisions[k], event.fates[k]))
  }

  // The state file after a run of polls that began with none.
  function After(log: seq<Event>, thresholds: Thresholds): (axes: seq<Axis>)
    ensures |axes| == AXES
  {
    if log == [] then [NO_HISTORY, NO_HISTORY, NO_HISTORY]
    else Next(After(log[..|log| - 1], thresholds), log[|log| - 1], thresholds)
  }

  function DecidedAt(log: seq<Event>, i: nat, thresholds: Thresholds, k: nat): Decision
    requires i < |log| && k < AXES
  {
    Decisions(After(log[..i], thresholds), log[i].sight, thresholds)[k]
  }

  // A run of polls on a clock past zero: every message met a fate that befits it.
  ghost predicate Runs(log: seq<Event>, thresholds: Thresholds) {
    && (forall event <- log :: event.sight.now > 0.0)
    && forall i, k | 0 <= i < |log| && 0 <= k < AXES ::
         Befits(DecidedAt(log, i, thresholds, k), log[i].fates[k], log[i].sight.now)
  }

  lemma {:induction false} RunsBefore(log: seq<Event>, n: nat, thresholds: Thresholds)
    requires n <= |log| && Runs(log, thresholds)
    ensures Runs(log[..n], thresholds)
  {
    hide Befits, Decisions, After;
    var front := log[..n];
    forall i, k | 0 <= i < n && 0 <= k < AXES
      ensures Befits(DecidedAt(front, i, thresholds, k), front[i].fates[k], front[i].sight.now)
    {
      assert front[..i] == log[..i] && front[i] == log[i];
      assert Befits(DecidedAt(log, i, thresholds, k), log[i].fates[k], log[i].sight.now);
    }
  }

  // One poll of a run, as `Poll` makes it.
  lemma {:induction false} EachPollIsPolled(log: seq<Event>, i: nat, thresholds: Thresholds)
    requires Runs(log, thresholds) && i < |log|
    ensures
      Polled(After(log[..i], thresholds), log[i].sight, thresholds, log[i].fates, After(log[..i + 1], thresholds))
  {
    assert log[..i + 1][..i] == log[..i];
    assert forall k :: 0 <= k < AXES ==>
      Befits(DecidedAt(log, i, thresholds, k), log[i].fates[k], log[i].sight.now);
  }

  // ----- the state file is the log -----

  // What an axis last read by the end of poll `i`.
  function StateAt(log: seq<Event>, i: nat, thresholds: Thresholds, k: nat): Option<State>
    requires i < |log| && k < AXES
  {
    After(log[..i + 1], thresholds)[k].state
  }

  // Poll `i` told a human something on an axis, and no later poll has.
  ghost predicate LastTold(log: seq<Event>, i: nat, k: nat)
    requires k < AXES
  {
    i < |log| && log[i].fates[k].Told? && forall j :: i < j < |log| ==> !log[j].fates[k].Told?
  }

  // `announced` and `spokeAt` are the state and the time of the last message
  // a human got.
  ghost predicate Knows(log: seq<Event>, thresholds: Thresholds, k: nat)
    requires k < AXES
  {
    var axis := After(log, thresholds)[k];
    if axis.announced.None? then axis.spokeAt == 0.0 && forall i :: 0 <= i < |log| ==> !log[i].fates[k].Told?
    else
      exists i: nat ::
        LastTold(log, i, k) && axis.announced == StateAt(log, i, thresholds, k)
        && axis.spokeAt == log[i].fates[k].at
  }

  // Deciding what to say does not record that it was said.
  lemma {:induction false} DecidingTellsNobody(axes: seq<Axis>, sight: Sight, thresholds: Thresholds, k: nat)
    requires |axes| == AXES && k < AXES
    ensures
      var decision := Decisions(axes, sight, thresholds)[k];
      && decision.0.announced == axes[k].announced && decision.0.spokeAt == axes[k].spokeAt
      && (decision.1.Some? ==> decision.0.state.Some?)
  {
    hide Classify, Commits, RepeatDue;
  }

  // What one poll does to what a human knows of an axis.
  lemma {:induction false} LastPollTells(log: seq<Event>, thresholds: Thresholds, k: nat)
    requires Runs(log, thresholds) && log != [] && k < AXES
    ensures
      var was, now := After(log[..|log| - 1], thresholds)[k], After(log, thresholds)[k];
      var fate := log[|log| - 1].fates[k];
      if fate.Told? then now.announced == now.state && now.state.Some? && now.spokeAt == fate.at
      else now.announced == was.announced && now.spokeAt == was.spokeAt
  {
    hide Decisions, Decide, DecideDelivery, DecideSplit;
    var n := |log| - 1;
    DecidingTellsNobody(After(log[..n], thresholds), log[n].sight, thresholds, k);
    assert Befits(DecidedAt(log, n, thresholds, k), log[n].fates[k], log[n].sight.now);
  }

  lemma {:induction false} KnowsStill(log: seq<Event>, thresholds: Thresholds, k: nat)
    requires log != [] && k < AXES && !log[|log| - 1].fates[k].Told?
    requires
      var was, now := After(log[..|log| - 1], thresholds)[k], After(log, thresholds)[k];
      now.announced == was.announced && now.spokeAt == was.spokeAt
    requires Knows(log[..|log| - 1], thresholds, k)
    ensures Knows(log, thresholds, k)
  {
    hide After;
    var front := log[..|log| - 1];
    var was := After(front, thresholds)[k];
    if was.announced.Some? {
      var i: nat :|
        LastTold(front, i, k) && was.announced == StateAt(front, i, thresholds, k)
        && was.spokeAt == front[i].fates[k].at;
      assert front[..i + 1] == log[..i + 1];
      assert LastTold(log, i, k);
      assert StateAt(log, i, thresholds, k) == StateAt(front, i, thresholds, k);
    }
  }

  lemma {:induction false} KnowsTheLog(log: seq<Event>, thresholds: Thresholds, k: nat)
    requires Runs(log, thresholds) && k < AXES
    ensures Knows(log, thresholds, k)
    decreases |log|
  {
    hide Next, Runs;
    if log != [] {
      var n := |log| - 1;
      RunsBefore(log, n, thresholds);
      KnowsTheLog(log[..n], thresholds, k);
      LastPollTells(log, thresholds, k);
      if log[n].fates[k].Told? {
        assert log[..n + 1] == log;
        assert LastTold(log, n, k);
      } else {
        KnowsStill(log, thresholds, k);
      }
    }
  }

  // ----- what a human knows -----

  lemma {:induction false} AxesBelong(log: seq<Event>, thresholds: Thresholds, k: nat)
    requires k < AXES
    ensures Belongs(k, After(log, thresholds)[k])
    decreases |log|
  {
    hide Decisions, Decides;
    if log != [] {
      var n := |log| - 1;
      var axes := After(log[..n], thresholds);
      AxesBelong(log[..n], thresholds, k);
      if Sees(k, log[n].sight, thresholds) {
        EveryAxisDecidesAlike(axes, log[n].sight, thresholds, k);
        DecidesBelongs(k, axes[k], Decisions(axes, log[n].sight, thresholds)[k], log[n].sight.now);
      } else {
        UnseenChangesNothing(axes, log[n].sight, thresholds, k);
      }
    }
  }

  lemma {:induction false} DecidesBelongs(k: nat, was: Axis, decision: Decision, now: real)
    requires Decides(k, was, decision, now)
    ensures Belongs(k, decision.0) && decision.0.state.Some?
  {
  }

  // A message that is lost is said again at every poll that reads the same, however
  // many are lost, until one gets through.
  lemma {:induction false} LostIsSaidUntilHeard(
    log: seq<Event>, i: nat, j: nat, thresholds: Thresholds, k: nat)
    requires i <= j < |log| && k < AXES && DecidedAt(log, i, thresholds, k).1.Some?
    requires forall m :: i <= m < j ==> log[m].fates[k] == Lost
    requires forall m :: i < m <= j ==>
      log[m].sight == log[i].sight.(now := log[m].sight.now) && log[m].sight.now >= log[m - 1].sight.now
    ensures
      var first, again := DecidedAt(log, i, thresholds, k).1, DecidedAt(log, j, thresholds, k).1;
      again.Some? && SaysTheSame(first.value, again.value)
    decreases j - i
  {
    hide After, Decisions, SaysTheSame;
    if i == j {
      SaysItself(DecidedAt(log, i, thresholds, k).1.value);
    } else {
      LostIsSaidUntilHeard(log, i, j - 1, thresholds, k);
      KeptByPoll(log, j, thresholds, k);
      var before := log[j - 1].sight;
      assert log[j].sight == before.(now := log[j].sight.now);
      LostIsSaidAgain(
        After(log[..j - 1], thresholds), before, thresholds, k, After(log[..j], thresholds), log[j].sight.now);
      SaysThrough(
        DecidedAt(log, i, thresholds, k).1.value, DecidedAt(log, j - 1, thresholds, k).1.value,
        DecidedAt(log, j, thresholds, k).1.value);
    }
  }

  lemma {:induction false} KeptByPoll(log: seq<Event>, j: nat, thresholds: Thresholds, k: nat)
    requires 0 < j <= |log| && k < AXES
    ensures After(log[..j], thresholds)[k] == Kept(DecidedAt(log, j - 1, thresholds, k), log[j - 1].fates[k])
  {
    hide Decisions;
    assert log[..j][..j - 1] == log[..j - 1];
  }

  lemma {:induction false} SaysItself(message: Message)
    ensures SaysTheSame(message, message)
  {
  }

  lemma {:induction false} SaysThrough(first: Message, second: Message, third: Message)
    requires SaysTheSame(first, second) && SaysTheSame(second, third)
    ensures SaysTheSame(first, third)
  {
  }

  // After any run of polls, one whose message was not lost leaves a human
  // knowing what it read: `announced` is its state, but for a trouble that has
  // not lasted yet, which leaves it alone, and for a calm reading, after which
  // no trouble is left announced.
  lemma {:induction false} InformedAfterARun(log: seq<Event>, thresholds: Thresholds, k: nat)
    requires Runs(log, thresholds) && log != [] && k < AXES
    requires log[|log| - 1].fates[k] != Lost && Sees(k, log[|log| - 1].sight, thresholds)
    ensures
      Informed(
        k, After(log[..|log| - 1], thresholds)[k], After(log, thresholds)[k], log[|log| - 1].sight.now)
  {
    var n := |log| - 1;
    AxesBelong(log[..n], thresholds, k);
    assert Befits(DecidedAt(log, n, thresholds, k), log[n].fates[k], log[n].sight.now);
    DeliveredInforms(After(log[..n], thresholds), log[n].sight, thresholds, k, log[n].fates[k]);
  }

  // Two readings in a row with a field missing or of the wrong type always page,
  // unless a human was told so within the repeat interval.
  lemma {:induction false} TwoBrokenReadingsPage(log: seq<Event>, thresholds: Thresholds)
    requires Runs(log, thresholds) && |log| >= 2
    requires !IsWhole(log[|log| - 1].sight.reading) && !IsWhole(log[|log| - 2].sight.reading)
    ensures
      var n := |log| - 1;
      var axis, message := DecidedAt(log, n, thresholds, 0).0, DecidedAt(log, n, thresholds, 0).1;
      || (message.Some? && message.value.Page? && message.value.fault == Unreachable)
      || (axis.announced == Some(Unreachable) && log[n].sight.now - axis.spokeAt < REALERT_AFTER_S)
  {
    hide IsWhole, Classify, Next;
    var n := |log| - 1;
    var before := log[..n];
    StrictOrUnreachable(log[n].sight.reading, thresholds);
    StrictOrUnreachable(log[n - 1].sight.reading, thresholds);
    assert before[|before| - 1] == log[n - 1];
    LastRead(before, thresholds);
  }

  // What the last poll read on the scheduling axis, and the run it makes.
  lemma {:induction false} LastRead(log: seq<Event>, thresholds: Thresholds)
    requires log != []
    ensures
      var n := |log| - 1;
      var was, axis := After(log[..n], thresholds)[0], After(log, thresholds)[0];
      var state := Classify(log[n].sight.reading, thresholds).state;
      axis.state == Some(state) && axis.run == RunOf(was, state) && axis.run >= 1
  {
    hide Classify;
  }

  // ----- counting -----

  function ReadAt(log: seq<Event>, i: nat, thresholds: Thresholds): State
    requires i < |log|
  {
    Classify(log[i].sight.reading, thresholds).state
  }

  // `consecutive` is the length of the run of readings the log ends in.
  lemma {:induction false} RunIsTrailing(log: seq<Event>, thresholds: Thresholds)
    requires log != []
    ensures
      var last := |log| - 1;
      var run := After(log, thresholds)[0].run;
      && After(log, thresholds)[0].state == Some(ReadAt(log, last, thresholds))
      && 1 <= run <= |log|
      && (forall i :: |log| - run <= i <= last ==> ReadAt(log, i, thresholds) == ReadAt(log, last, thresholds))
      && (run < |log| ==> ReadAt(log, |log| - run - 1, thresholds) != ReadAt(log, last, thresholds))
    decreases |log|
  {
    hide Classify, After;
    LastRead(log, thresholds);
    var n := |log| - 1;
    var front := log[..n];
    if n == 0 {
      assert front == [];
      NothingRead(thresholds);
    } else {
      RunIsTrailing(front, thresholds);
      assert forall i :: 0 <= i < n ==> ReadAt(front, i, thresholds) == ReadAt(log, i, thresholds);
    }
  }

  lemma {:induction false} NothingRead(thresholds: Thresholds)
    ensures After([], thresholds)[0].state == None && After([], thresholds)[1].state == None
  {
  }

  predicate HeldAt(log: seq<Event>, i: nat)
    requires i < |log|
  {
    ApiUnreachable(log[i].sight.reading.status) && log[i].sight.delivery == Unreachable
  }

  // Delivery's: a reading held while the API is down counts toward nothing.
  lemma {:induction false} DeliveryRunIsTrailing(log: seq<Event>, thresholds: Thresholds)
    requires log != []
    ensures
      var last := |log| - 1;
      var run := After(log, thresholds)[1].run;
      && After(log, thresholds)[1].state == Some(log[last].sight.delivery)
      && run <= |log|
      && (run == 0 <==> HeldAt(log, last))
      && (forall i :: |log| - run <= i <= last ==>
            log[i].sight.delivery == log[last].sight.delivery && !HeldAt(log, i))
      && (0 < run < |log| ==>
            log[|log| - run - 1].sight.delivery != log[last].sight.delivery || HeldAt(log, |log| - run - 1))
    decreases |log|
  {
    hide After, HeldAt;
    LastDelivery(log, thresholds);
    var n := |log| - 1;
    var front := log[..n];
    if n == 0 {
      assert front == [];
      NothingRead(thresholds);
    } else {
      DeliveryRunIsTrailing(front, thresholds);
      HeldBefore(log);
      assert forall i :: 0 <= i < n ==> front[i] == log[i] && HeldAt(front, i) == HeldAt(log, i);
    }
  }

  lemma {:induction false} LastDelivery(log: seq<Event>, thresholds: Thresholds)
    requires log != []
    ensures
      var n := |log| - 1;
      var was, axis := After(log[..n], thresholds)[1], After(log, thresholds)[1];
      && axis.state == Some(log[n].sight.delivery)
      && axis.run == if HeldAt(log, n) then 0 else RunOf(was, log[n].sight.delivery)
  {
    hide Classify, Decide, DecideSplit, Commits, RepeatDue;
  }

  lemma {:induction false} HeldBefore(log: seq<Event>)
    requires log != []
    ensures
      var front := log[..|log| - 1];
      forall i :: 0 <= i < |front| ==> HeldAt(front, i) == HeldAt(log, i)
  {
  }

  function DestinationsAt(log: seq<Event>, i: nat, thresholds: Thresholds): nat
    requires i < |log|
  {
    CountOf(Get(Classify(log[i].sight.reading, thresholds).payload, "accounts_active"))
  }

  // `max_active_seen` is the most destinations any reading has shown.
  lemma {:induction false} SeenIsTheMost(log: seq<Event>, thresholds: Thresholds)
    ensures
      var seen := After(log, thresholds)[0].seen;
      && (forall i :: 0 <= i < |log| ==> DestinationsAt(log, i, thresholds) <= seen)
      && (seen > 0 ==> exists i :: 0 <= i < |log| && DestinationsAt(log, i, thresholds) == seen)
    decreases |log|
  {
    if log == [] {
      assert After(log, thresholds)[0] == NO_HISTORY;
    } else {
      var n := |log| - 1;
      var front := log[..n];
      SeenGrows(log, thresholds);
      SameDestinations(log, thresholds);
      hide After, DestinationsAt;
      SeenIsTheMost(front, thresholds);
      if After(log, thresholds)[0].seen > DestinationsAt(log, n, thresholds) {
        var i :| 0 <= i < n && DestinationsAt(front, i, thresholds) == After(front, thresholds)[0].seen;
        assert DestinationsAt(log, i, thresholds) == After(log, thresholds)[0].seen;
      }
    }
  }

  lemma {:induction false} SeenGrows(log: seq<Event>, thresholds: Thresholds)
    requires log != []
    ensures
      var n := |log| - 1;
      var before, now := After(log[..n], thresholds)[0].seen, DestinationsAt(log, n, thresholds);
      After(log, thresholds)[0].seen == if now > before then now else before
  {
    hide Classify, CountOf;
  }

  lemma {:induction false} SameDestinations(log: seq<Event>, thresholds: Thresholds)
    requires log != []
    ensures
      forall i :: 0 <= i < |log| - 1 ==>
        DestinationsAt(log[..|log| - 1], i, thresholds) == DestinationsAt(log, i, thresholds)
  {
    hide Classify, CountOf;
  }
}
