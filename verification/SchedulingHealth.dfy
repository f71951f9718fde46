// What one reading of `/health/scheduling` means, before any history.

module SchedulingHealth {
  import opened Chars
  import opened JsonValues

  // What a request came back with: its status, and its body when that is JSON.
  datatype Reading = Reading(status: int, body: Option<Json>)

  // The states of every axis the monitor keeps; the first six are this one's.
  datatype State =
    | Healthy | Stalled | NoSignal | Unreachable | WorkerDown | WorkerUnknown
    | Delivering | Quiet | Failing
    | Split | Same

  datatype Verdict = Verdict(state: State, payload: map<string, Json>)

  datatype Thresholds = Thresholds(stall: int, stale: int, overdue: int)

  datatype Worker = Invalid | Absent | Down | Alive | Unknown

  predicate IsCount(value: Json) {
    value.Number?
  }

  predicate IsCountOrNull(value: Json) {
    value.Null? || IsCount(value)
  }

  function WorkerState(data: map<string, Json>, thresholds: Thresholds): Worker {
    if "worker" !in data then Absent
    else if !data["worker"].Object? then Invalid
    else
      var w := data["worker"].fields;
      if !IsCount(Get(w, "succeeded_ever")) || !IsCount(Get(w, "overdue_ready")) then Invalid
      else if
        || "last_success_age_seconds" !in w || !IsCountOrNull(w["last_success_age_seconds"])
        || "max_overdue_seconds" !in w || !IsCountOrNull(w["max_overdue_seconds"])
      then Invalid
      else
        var age, overdue := w["last_success_age_seconds"], w["max_overdue_seconds"];
        if overdue.Number? && overdue.value > thresholds.overdue then Down
        else if age.Number? && age.value > thresholds.stale then Down
        else if age.Number? then Alive
        else Unknown
  }

  function Classify(reading: Reading, thresholds: Thresholds): Verdict {
    var broken := Verdict(Unreachable, map[]);
    if reading.status != 200 then broken
    else if reading.body.None? then broken
    else if !reading.body.value.Object? then broken
    else
      var data := reading.body.value.fields;
      var lag := Get(data, "max_lag_seconds");
      if !IsCount(Get(data, "stalled")) || !IsCount(Get(data, "accounts_active")) then broken
      else if !IsCountOrNull(lag) then broken
      else
        match WorkerState(data, thresholds)
        case Invalid => broken
        case Absent => broken
        case Down => Verdict(WorkerDown, data)
        case worker =>
          if data["accounts_active"].value == 0 then
            Verdict(if worker == Unknown then WorkerUnknown else NoSignal, data)
          else if lag.Number? && lag.value > thresholds.stall then Verdict(Stalled, data)
          else Verdict(Healthy, data)
  }

  // ----- commits -----

  predicate IsCommit(value: Json) {
    value.Text? && 7 <= |value.text| <= 40
    && forall c <- value.text :: '0' <= c <= '9' || 'a' <= c <= 'f'
  }

  function Commits(data: map<string, Json>): Option<(string, string)> {
    var api := Get(data, "api_commit");
    var worker :=
      if Get(data, "worker").Object? then Get(Get(data, "worker").fields, "commit") else Null;
    if IsCommit(api) && IsCommit(worker) then Some((api.text[..7], worker.text[..7])) else None
  }

  // ----- strictness -----

  // Every field the monitor reads is there, and of its type.
  predicate IsWholeWorker(value: Json) {
    && value.Object?
    && (forall key <- ["succeeded_ever", "overdue_ready"] ::
          key in value.fields && IsCount(value.fields[key]))
    && (forall key <- ["last_success_age_seconds", "max_overdue_seconds"] ::
          key in value.fields && IsCountOrNull(value.fields[key]))
  }

  predicate IsWhole(reading: Reading) {
    && reading.status == 200 && reading.body.Some? && reading.body.value.Object?
    && var data := reading.body.value.fields;
    && (forall key <- ["stalled", "accounts_active"] :: key in data && IsCount(data[key]))
    && ("max_lag_seconds" in data ==> IsCountOrNull(data["max_lag_seconds"]))
    && "worker" in data && IsWholeWorker(data["worker"])
  }

  // A reading that is not whole is never read as anything milder than
  // unreachable, and only such a reading is.
  lemma {:induction false} StrictOrUnreachable(reading: Reading, thresholds: Thresholds)
    ensures Classify(reading, thresholds).state == Unreachable <==> !IsWhole(reading)
    ensures Classify(reading, thresholds).state in {Healthy, Stalled, NoSignal, Unreachable, WorkerDown, WorkerUnknown}
  {
    if reading.status == 200 && reading.body.Some? && reading.body.value.Object? {
      var data := reading.body.value.fields;
      WorkerIsWhole(data, thresholds);
      TopsAreWhole(data);
      hide WorkerState, IsWholeWorker;
    }
  }

  lemma {:induction false} TopsAreWhole(data: map<string, Json>)
    ensures
      IsCount(Get(data, "stalled")) && IsCount(Get(data, "accounts_active")) <==>
      forall key <- ["stalled", "accounts_active"] :: key in data && IsCount(data[key])
    ensures IsCountOrNull(Get(data, "max_lag_seconds")) <==>
      ("max_lag_seconds" in data ==> IsCountOrNull(data["max_lag_seconds"]))
  {
    var tops := ["stalled", "accounts_active"];
    assert tops[0] in tops && tops[1] in tops;
    assert forall key <- tops :: key == tops[0] || key == tops[1];
  }

  lemma {:induction false} WorkerIsWhole(data: map<string, Json>, thresholds: Thresholds)
    ensures
      WorkerState(data, thresholds) in {Invalid, Absent} <==>
      !("worker" in data && IsWholeWorker(data["worker"]))
  {
    var counts, ages := ["succeeded_ever", "overdue_ready"], ["last_success_age_seconds", "max_overdue_seconds"];
    assert counts[0] in counts && counts[1] in counts && ages[0] in ages && ages[1] in ages;
  }

  // The worker is late: overdue work past its threshold, or no success for longer
  // than a stale one's.
  predicate IsLate(worker: map<string, Json>, thresholds: Thresholds) {
    || (Get(worker, "max_overdue_seconds").Number?
        && Get(worker, "max_overdue_seconds").value > thresholds.overdue)
    || (Get(worker, "last_success_age_seconds").Number?
        && Get(worker, "last_success_age_seconds").value > thresholds.stale)
  }

  predicate LagsBehind(data: map<string, Json>, thresholds: Thresholds) {
    Get(data, "max_lag_seconds").Number? && Get(data, "max_lag_seconds").value > thresholds.stall
  }

  // What a whole reading is read as, each way round: a late worker is down,
  // whatever else is said; an estate with no active destination is quiet when the
  // worker has ever succeeded and unknown when it has not; any other is stalled
  // exactly when it lags.
  lemma {:induction false} WholeReadings(reading: Reading, thresholds: Thresholds)
    requires IsWhole(reading)
    ensures
      var data, verdict := reading.body.value.fields, Classify(reading, thresholds);
      var worker := data["worker"].fields;
      var late, active := IsLate(worker, thresholds), data["accounts_active"].value;
      && verdict.payload == data
      && (verdict.state == WorkerDown <==> late)
      && (verdict.state == NoSignal <==>
            !late && active == 0 && worker["last_success_age_seconds"].Number?)
      && (verdict.state == WorkerUnknown <==>
            !late && active == 0 && !worker["last_success_age_seconds"].Number?)
      && (verdict.state == Stalled <==> !late && active != 0 && LagsBehind(data, thresholds))
      && (verdict.state == Healthy <==> !late && active != 0 && !LagsBehind(data, thresholds))
  {
    var data := reading.body.value.fields;
    WorkerIsWhole(data, thresholds);
    TopsAreWhole(data);
    WorkerReads(data, thresholds);
    KeysOfWorker(data["worker"]);
    hide WorkerState, IsWholeWorker, IsLate;
  }

  lemma {:induction false} KeysOfWorker(value: Json)
    requires IsWholeWorker(value)
    ensures "last_success_age_seconds" in value.fields && "max_overdue_seconds" in value.fields
  {
    var ages := ["last_success_age_seconds", "max_overdue_seconds"];
    assert ages[0] in ages && ages[1] in ages;
  }

  lemma {:induction false} WorkerReads(data: map<string, Json>, thresholds: Thresholds)
    requires "worker" in data && IsWholeWorker(data["worker"])
    ensures
      var worker := data["worker"].fields;
      && (WorkerState(data, thresholds) == Down <==> IsLate(worker, thresholds))
      && (WorkerState(data, thresholds) == Alive <==>
            !IsLate(worker, thresholds) && Get(worker, "last_success_age_seconds").Number?)
      && WorkerState(data, thresholds) in {Down, Alive, Unknown}
  {
    WorkerIsWhole(data, thresholds);
    KeysOfWorker(data["worker"]);
    hide IsWholeWorker;
  }

  // Calm is claimed only on evidence: a healthy reading shows a destination, no
  // lag beyond the threshold and no worker known to be late; a quiet notice is
  // given only on an estate with no active destination.
  lemma {:induction false} CalmHasEvidence(reading: Reading, thresholds: Thresholds)
    ensures
      var verdict := Classify(reading, thresholds);
      verdict.state != Unreachable ==>
      && reading.body == Some(Object(verdict.payload))
      && var active := Get(verdict.payload, "accounts_active");
      && active.Number?
      && (verdict.state in {NoSignal, WorkerUnknown} ==> active.value == 0)
      && (verdict.state in {Healthy, Stalled} ==> active.value != 0)
      && (verdict.state != WorkerDown ==>
            forall key, limit | (key, limit) in
              [("last_success_age_seconds", thresholds.stale), ("max_overdue_seconds", thresholds.overdue)] ::
              var late := Get(Get(verdict.payload, "worker").fields, key);
              late.Number? ==> late.value <= limit)
      && (verdict.state == Healthy ==>
            var lag := Get(verdict.payload, "max_lag_seconds");
            lag.Number? ==> lag.value <= thresholds.stall)
  {
  }
}
