// Several runners against one database, interleaved statement by statement. A
// runner polls for the lock with nothing open, works while it holds it, and may
// die anywhere.

module RunnerInterleaving {
  import opened Chars
  import opened Migrations
  import opened Database
  import opened Transcripts
  import opened LedgerRules
  import opened Outcomes
  import opened Adoption
  import opened Verbs
  import opened RunnerHistories
  import opened RunnerProgress

  // The ledger and the retired table, as every runner sees them.
  datatype Tables = Tables(rows: Ledger, legacy: Option<Ledger>)

  function TablesOf(db: Db): Tables {
    Tables(db.Rows(), db.legacy)
  }

  // What one transaction of a run does to the tables.
  datatype Write =
    | Insert(rows: Ledger)
    | Overwrite(rows: Ledger)
    | Replace(rows: Ledger)

  function Written(t: Tables, w: Write): Tables {
    match w
    case Insert(rows) => t.(rows := t.rows + rows)
    case Overwrite(rows) => t.(rows := t.rows + rows)
    case Replace(rows) => Tables(rows, Some(t.rows))
  }

  function WriteAll(t: Tables, ws: seq<Write>): Tables {
    if ws == [] then t else Written(WriteAll(t, ws[..|ws| - 1]), ws[|ws| - 1])
  }

  function InsertOne(m: Migration): Write {
    Insert(map[m.version := Row(m.checksum, Applied)])
  }

  function InsertEach(ms: seq<Migration>): (ws: seq<Write>)
    ensures |ws| == |ms| && forall i :: 0 <= i < |ms| ==> ws[i] == InsertOne(ms[i])
  {
    if ms == [] then [] else [InsertOne(ms[0])] + InsertEach(ms[1..])
  }

  function Adoptions(window: seq<Migration>, ledger: Ledger, results: Results): Ledger
    requires forall m <- Unrecorded(window, ledger) :: m.version in results
  {
    RecordRows(map[], Proven(Unrecorded(window, ledger), results), Adopted)
  }

  // The rows coherent evidence lets into an intact ledger.
  ghost predicate MayAdopt(
    window: seq<Migration>, ledger: Ledger, floor: int, raw: seq<ManifestEntry>, rows: Ledger)
  {
    && Intact(ledger, window)
    && exists entries, results ::
         && Manifested(entries, raw, window)
         && Coherent(Unrecorded(window, ledger), floor, entries, results)
         && rows == Adoptions(window, ledger, results)
  }

  // The transactions a verb may go through, from the tables it read under the
  // lock. A refused run has none.
  ghost predicate Plans(tree: seq<Migration>, verb: Verb, t: Tables, ws: seq<Write>) {
    ws == [] ||
    match verb
    case Apply(bound) =>
      && Accepts(tree, Within(tree, bound), t.rows)
      && ws == InsertEach(ToApply(Within(tree, bound), t.rows))
    case ApplyManual(version) =>
      exists m <- tree :: m.version == version && ManualAccepts(tree, m, t.rows) && ws == [InsertOne(m)]
    case Adopt(bound, floor, raw) =>
      && !HoldsRetired(t.rows, tree)
      && exists rows :: MayAdopt(Within(tree, bound), t.rows, floor, raw, rows) && ws == [Insert(rows)]
    case ConvertLedger(floor, raw) =>
      && OnlyRetired(t.rows, tree) && t.legacy.None?
      && exists rows :: MayAdopt(tree, map[], floor, raw, rows) && ws == [Replace(rows)]
    case Repair(version) =>
      && !HoldsRetired(t.rows, tree) && version in t.rows
      && exists m <- tree :: m.version == version && ws == [Overwrite(map[version := Row(m.checksum, Repaired)])]
  }

  // ----- the system -----

  // Where a run stands: not yet at the lock, waiting for it, holding it with the
  // ledger unread, working with some transactions to come, on its way out, gone.
  datatype Place = Starting | Waiting(tries: nat) | Holding | Working(rest: seq<Write>) | Ending | Gone

  datatype Runner = Runner(verb: Verb, place: Place, tx: Tx)

  // A run in the order the lock was given, with what it has committed.
  datatype Entry = Entry(runner: nat, verb: Verb, writes: seq<Write>)

  datatype System = System(tables: Tables, lock: Option<nat>, runners: seq<Runner>, entries: seq<Entry>)

  datatype Step =
    | Try(i: nat) | GiveUp(i: nat)
    | Read(i: nat, ws: seq<Write>)
    | OpenBlock(i: nat) | Abort(i: nat) | Commit(i: nat)
    | Stop(i: nat) | EndBlock(i: nat) | Unlock(i: nat)
    | Die(i: nat)

  predicate InCritical(place: Place) {
    place.Holding? || place.Working? || place.Ending?
  }

  ghost predicate Next(tree: seq<Migration>, s: System, t: System, step: Step) {
    && step.i < |s.runners|
    && var r := s.runners[step.i];
       var mine := s.lock == Some(step.i);
       match step
       case Try(i) =>
         && (r.place.Starting? || r.place.Waiting?)
         && t == (if s.lock.None?
                  then s.(lock := Some(i), runners := s.runners[i := r.(place := Holding)])
                  else s.(runners := s.runners[i := r.(place :=
                    Waiting(if r.place.Waiting? then r.place.tries + 1 else 1))]))
       case GiveUp(i) =>
         r.place.Waiting? && t == s.(runners := s.runners[i := r.(place := Gone)])
       case Read(i, ws) =>
         && r.place.Holding? && Plans(tree, r.verb, s.tables, ws)
         && t == s.(runners := s.runners[i := r.(place := Working(ws))],
                    entries := s.entries + [Entry(i, r.verb, [])])
       case OpenBlock(i) =>
         && r.place.Working? && r.tx == Idle
         && t == s.(runners := s.runners[i := r.(tx := InTransaction)])
       case Abort(i) =>
         && r.place.Working? && r.tx == InTransaction
         && t == s.(runners := s.runners[i := r.(tx := Aborted)])
       case Commit(i) =>
         && r.place.Working? && r.place.rest != [] && r.tx != Aborted && s.entries != []
         && var last := s.entries[|s.entries| - 1];
            t == s.(tables := Written(s.tables, r.place.rest[0]),
                    runners := s.runners[i := Runner(r.verb, Working(r.place.rest[1..]), Idle)],
                    entries := s.entries[|s.entries| - 1 := last.(writes := last.writes + [r.place.rest[0]])])
       case Stop(i) =>
         && (r.place.Working? || r.place.Holding?)
         && t == s.(runners := s.runners[i := r.(place := Ending)])
       case EndBlock(i) =>
         && r.place.Ending? && r.tx != Idle
         && t == s.(runners := s.runners[i := r.(tx := Idle)])
       case Unlock(i) =>
         && r.place.Ending? && r.tx == Idle
         && t == s.(lock := if mine then None else s.lock, runners := s.runners[i := r.(place := Gone)])
       case Die(i) =>
         t == s.(lock := if mine then None else s.lock, runners := s.runners[i := Runner(r.verb, Gone, Idle)])
  }

  ghost predicate Init(s: System) {
    && s.lock.None? && s.entries == []
    && forall r <- s.runners :: r.place.Starting? && r.tx == Idle
  }

  // ----- serial executions -----

  // The ledger after the runs of `entries`, one after another, each committing a
  // part of what it planned from the ledger the one before it left.
  ghost predicate Serial(tree: seq<Migration>, start: Tables, entries: seq<Entry>, end: Tables)
    decreases |entries|
  {
    if entries == [] then end == start
    else
      var last := entries[|entries| - 1];
      exists before: Tables, plan: seq<Write> ::
        && Serial(tree, start, entries[..|entries| - 1], before)
        && Plans(tree, last.verb, before, plan)
        && last.writes <= plan
        && end == WriteAll(before, last.writes)
  }

  // The run that is working now: its plan is what it has committed and what it
  // has to come, planned from the ledger the runs before it left.
  ghost predicate AtWork(tree: seq<Migration>, start: Tables, s: System, rest: seq<Write>) {
    && s.entries != []
    && var last := s.entries[|s.entries| - 1];
       exists before: Tables ::
         && Serial(tree, start, s.entries[..|s.entries| - 1], before)
         && Plans(tree, last.verb, before, last.writes + rest)
         && s.tables == WriteAll(before, last.writes)
  }

  ghost predicate LockInv(s: System) {
    && (s.lock.Some? ==> s.lock.value < |s.runners|)
    && (forall i :: 0 <= i < |s.runners| ==> (InCritical(s.runners[i].place) <==> s.lock == Some(i)))
    && (forall i :: 0 <= i < |s.runners| && s.runners[i].tx != Idle ==>
          s.runners[i].place.Working? || s.runners[i].place.Ending?)
  }

  ghost predicate WorkInv(tree: seq<Migration>, start: Tables, s: System) {
    && Serial(tree, start, s.entries, s.tables)
    && (forall i :: 0 <= i < |s.runners| && s.runners[i].place.Working? ==>
          && AtWork(tree, start, s, s.runners[i].place.rest)
          && s.entries[|s.entries| - 1].runner == i)
  }

  ghost predicate Inv(tree: seq<Migration>, start: Tables, s: System) {
    LockInv(s) && WorkInv(tree, start, s)
  }

  lemma {:induction false} InitHolds(tree: seq<Migration>, s: System)
    requires Init(s)
    ensures Inv(tree, s.tables, s)
  {
    assert forall i :: 0 <= i < |s.runners| ==> s.runners[i] in s.runners;
  }

  lemma {:induction false} NextKeepsInv(tree: seq<Migration>, start: Tables, s: System, t: System, step: Step)
    requires Inv(tree, start, s) && Next(tree, s, t, step)
    ensures Inv(tree, start, t)
  {
    hide Next, WorkInv, LockInv;
    NextKeepsLock(tree, s, t, step);
    match step
    case Read(i, ws) => ReadStarts(tree, start, s, t, i, ws);
    case Commit(i) => CommitGoesOn(tree, start, s, t, i);
    case _ => OthersGoOn(tree, start, s, t, step);
  }

  lemma {:induction false} NextKeepsLock(tree: seq<Migration>, s: System, t: System, step: Step)
    requires LockInv(s) && Next(tree, s, t, step)
    ensures LockInv(t)
  {
    hide Plans;
  }

  lemma {:induction false} OthersGoOn(tree: seq<Migration>, start: Tables, s: System, t: System, step: Step)
    requires Inv(tree, start, s) && Next(tree, s, t, step) && !step.Read? && !step.Commit?
    ensures WorkInv(tree, start, t)
  {
    hide Plans, Serial, AtWork, LockInv;
    assert t.entries == s.entries && t.tables == s.tables;
    forall i | 0 <= i < |t.runners| && t.runners[i].place.Working?
      ensures AtWork(tree, start, t, t.runners[i].place.rest)
    {
      assert s.runners[i].place == t.runners[i].place;
      SameWork(tree, start, s, t, t.runners[i].place.rest);
    }
  }

  lemma {:induction false} SameWork(tree: seq<Migration>, start: Tables, s: System, t: System, rest: seq<Write>)
    requires AtWork(tree, start, s, rest) && t.entries == s.entries && t.tables == s.tables
    ensures AtWork(tree, start, t, rest)
  {
    hide Plans, Serial;
  }

  lemma {:induction false} ReadStarts(
    tree: seq<Migration>, start: Tables, s: System, t: System, i: nat, ws: seq<Write>)
    requires Inv(tree, start, s) && Next(tree, s, t, Read(i, ws))
    ensures WorkInv(tree, start, t)
  {
    hide Plans, WriteAll;
    NothingWritten(s.tables);
    var last := t.entries[|t.entries| - 1];
    assert t.entries[..|t.entries| - 1] == s.entries && last.writes + ws == ws;
    assert AtWork(tree, start, t, ws);
    assert last.writes <= ws;
    assert Serial(tree, start, t.entries, t.tables);
  }

  lemma {:induction false} NothingWritten(t: Tables)
    ensures WriteAll(t, []) == t
  {
  }

  lemma {:induction false} CommitGoesOn(tree: seq<Migration>, start: Tables, s: System, t: System, i: nat)
    requires Inv(tree, start, s) && Next(tree, s, t, Step.Commit(i))
    ensures WorkInv(tree, start, t)
  {
    hide Plans, WriteAll, Written;
    var n := |s.entries| - 1;
    var rest := s.runners[i].place.rest;
    var last, next := s.entries[n], t.entries[n];
    var before: Tables :|
      && Serial(tree, start, s.entries[..n], before)
      && Plans(tree, last.verb, before, last.writes + rest)
      && s.tables == WriteAll(before, last.writes);
    assert t.entries[..n] == s.entries[..n];
    assert next.writes + rest[1..] == last.writes + rest;
    WrittenNext(before, last.writes, rest[0]);
    assert AtWork(tree, start, t, rest[1..]);
    assert next.writes <= last.writes + rest;
    assert Serial(tree, start, t.entries, t.tables);
  }

  lemma {:induction false} WrittenNext(before: Tables, ws: seq<Write>, w: Write)
    ensures WriteAll(before, ws + [w]) == Written(WriteAll(before, ws), w)
  {
    assert (ws + [w])[..|ws + [w]| - 1] == ws;
  }

  // ----- what holds in every run of the system -----

  ghost predicate Behaviour(tree: seq<Migration>, states: seq<System>, steps: seq<Step>) {
    && |states| == |steps| + 1 && Init(states[0])
    && forall k :: 0 <= k < |steps| ==> Next(tree, states[k], states[k + 1], steps[k])
  }

  lemma {:induction false} BehaviourKeepsInv(tree: seq<Migration>, states: seq<System>, steps: seq<Step>, k: nat)
    requires Behaviour(tree, states, steps) && k < |states|
    ensures Inv(tree, states[0].tables, states[k])
    decreases k
  {
    hide Next, Inv, Init;
    if k == 0 {
      InitHolds(tree, states[0]);
    } else {
      BehaviourKeepsInv(tree, states, steps, k - 1);
      assert Next(tree, states[k - 1], states[k - 1 + 1], steps[k - 1]);
      NextKeepsInv(tree, states[0].tables, states[k - 1], states[k], steps[k - 1]);
    }
  }

  // At most one run is between taking the lock and giving it back; a run that
  // waits has nothing open; and the ledger is what the runs, taken one at a time
  // in the order the lock was given, would have left.
  lemma {:induction false} RunsAreSerial(tree: seq<Migration>, states: seq<System>, steps: seq<Step>, k: nat)
    requires Behaviour(tree, states, steps) && k < |states|
    ensures
      var s := states[k];
      && (forall i, j |
            && 0 <= i < |s.runners| && 0 <= j < |s.runners|
            && InCritical(s.runners[i].place) && InCritical(s.runners[j].place) :: i == j)
      && (forall i :: 0 <= i < |s.runners| && s.runners[i].place.Waiting? ==> s.runners[i].tx == Idle)
      && Serial(tree, states[0].tables, s.entries, s.tables)
  {
    hide Serial, AtWork, Behaviour;
    BehaviourKeepsInv(tree, states, steps, k);
  }

  // The lock goes back with no block open and nobody else at work, however the
  // run ended.
  lemma {:induction false} LockGoesBackAlone(tree: seq<Migration>, states: seq<System>, steps: seq<Step>, k: nat)
    requires Behaviour(tree, states, steps) && k < |steps|
    ensures
      forall i :: states[k].lock == Some(i) && states[k + 1].lock != Some(i) ==>
        && i < |states[k + 1].runners| && states[k + 1].runners[i] == Runner(states[k].runners[i].verb, Gone, Idle)
        && forall j :: 0 <= j < |states[k].runners| && j != i ==>
             && !InCritical(states[k].runners[j].place) && states[k].runners[j].tx == Idle
             && states[k + 1].runners[j] == states[k].runners[j]
  {
    hide Plans, Serial, AtWork;
    BehaviourKeepsInv(tree, states, steps, k);
    assert Next(tree, states[k], states[k + 1], steps[k]);
  }

  // ----- the verbs go by their plans -----

  lemma {:induction false} WriteEachIsRecord(t: Tables, ms: seq<Migration>, k: nat)
    requires k <= |ms|
    ensures WriteAll(t, InsertEach(ms)[..k]) == t.(rows := RecordRows(t.rows, ms[..k], Applied))
    decreases k
  {
    hide WriteAll, RecordRows, InsertEach;
    var ws := InsertEach(ms);
    if k == 0 {
      NothingWritten(t);
      NothingRecorded(t.rows);
      assert ws[..0] == [] && ms[..0] == [];
    } else {
      WriteEachIsRecord(t, ms, k - 1);
      assert ws[..k] == ws[..k - 1] + [ws[k - 1]];
      WrittenNext(t, ws[..k - 1], ws[k - 1]);
      RecordedNext(t.rows, ms, k - 1);
    }
  }

  lemma {:induction false} NothingRecorded(ledger: Ledger)
    ensures RecordRows(ledger, [], Applied) == ledger
  {
  }

  lemma {:induction false} RecordedNext(ledger: Ledger, ms: seq<Migration>, k: nat)
    requires k < |ms|
    ensures
      RecordRows(ledger, ms[..k + 1], Applied) ==
      RecordRows(ledger, ms[..k], Applied) + map[ms[k].version := Row(ms[k].checksum, Applied)]
  {
    assert ms[..k + 1][..k] == ms[..k];
  }

  lemma {:induction false} RecordOnto(ledger: Ledger, ms: seq<Migration>, status: Status)
    ensures RecordRows(ledger, ms, status) == ledger + RecordRows(map[], ms, status)
  {
    if ms != [] {
      RecordOnto(ledger, ms[..|ms| - 1], status);
    }
  }

  lemma {:induction false} WriteOne(t: Tables, w: Write)
    ensures WriteAll(t, [w]) == Written(t, w)
  {
    assert [w][..0] == [] && WriteAll(t, []) == t;
  }

  // However a run of a verb ended, it had carried out a part of a plan made from
  // the tables it found; a run that succeeded, all of it.
  ghost predicate Planned(tree: seq<Migration>, verb: Verb, before: Tables, after: Tables, ok: bool) {
    exists ws, k: nat ::
      && Plans(tree, verb, before, ws) && k <= |ws| && (ok ==> k == |ws|)
      && after == WriteAll(before, ws[..k])
  }

  lemma {:induction false} RunIsPlanned(
    tree: seq<Migration>, verb: Verb, before: Db, after: Db, said: seq<Event>, ok: bool)
    requires RunEnds(tree, verb, before, after, said, ok)
    ensures Planned(tree, verb, TablesOf(before), TablesOf(after), ok)
  {
    hide ApplyEnds, ManualEnds, Adopts, OnlyRetired, HoldsRetired, RowsShown, Readable, Manifested, Planned;
    if !ok && (after == before || after == WithTable(before)) {
      NothingPlanned(tree, verb, TablesOf(before));
    } else {
      match verb {
        case Apply(bound) => ApplyIsPlanned(tree, bound, before, after, ok);
        case ApplyManual(version) => ManualIsPlanned(tree, version, before, after, ok);
        case Adopt(bound, floor, raw) =>
          var entries :| Manifested(entries, raw, Within(tree, bound))
            && AdoptEnds(tree, Within(tree, bound), floor, entries, before, after, said, ok);
          AdoptIsPlanned(tree, bound, floor, raw, entries, before, after, said, ok);
        case ConvertLedger(floor, raw) =>
          var entries :| Manifested(entries, raw, tree)
            && ConvertEnds(tree, floor, entries, before, after, said, ok);
          ConvertIsPlanned(tree, floor, raw, entries, before, after, said, ok);
        case Repair(version) => RepairIsPlanned(tree, version, before, after, ok);
      }
    }
  }

  lemma {:induction false} AdoptIsPlanned(
    tree: seq<Migration>, bound: Option<nat>, floor: int, raw: seq<ManifestEntry>, entries: map<nat, Evidence>,
    before: Db, after: Db, said: seq<Event>, ok: bool)
    requires Manifested(entries, raw, Within(tree, bound))
    requires !HoldsRetired(before.Rows(), tree)
    requires Adopts(Within(tree, bound), before.Rows(), floor, entries, WithTable(before), after, said)
    ensures Planned(tree, Adopt(bound, floor, raw), TablesOf(before), TablesOf(after), ok)
  {
    hide Adopts, HoldsRetired, Planned, MayAdopt, Manifested;
    AdoptedMay(Within(tree, bound), before.Rows(), floor, raw, entries, WithTable(before), after, said);
    var rows :|
      && MayAdopt(Within(tree, bound), before.Rows(), floor, raw, rows)
      && after == WithTable(before).(ledger := Some(before.Rows() + rows));
    OnePlanned(tree, Adopt(bound, floor, raw), TablesOf(before), Insert(rows), ok);
  }

  lemma {:induction false} ConvertIsPlanned(
    tree: seq<Migration>, floor: int, raw: seq<ManifestEntry>, entries: map<nat, Evidence>,
    before: Db, after: Db, said: seq<Event>, ok: bool)
    requires Manifested(entries, raw, tree)
    requires before.ledger.Some? && before.legacy.None? && OnlyRetired(before.ledger.value, tree)
    requires Adopts(tree, map[], floor, entries, Retired(before), after, said)
    ensures Planned(tree, ConvertLedger(floor, raw), TablesOf(before), TablesOf(after), ok)
  {
    hide Adopts, OnlyRetired, Planned, MayAdopt, Manifested;
    AdoptedMay(tree, map[], floor, raw, entries, Retired(before), after, said);
    var rows :|
      && MayAdopt(tree, map[], floor, raw, rows)
      && after == Retired(before).(ledger := Some(map[] + rows));
    assert map[] + rows == rows;
    OnePlanned(tree, ConvertLedger(floor, raw), TablesOf(before), Replace(rows), ok);
  }

  lemma {:induction false} RepairIsPlanned(
    tree: seq<Migration>, version: nat, before: Db, after: Db, ok: bool)
    requires !HoldsRetired(before.Rows(), tree) && version in before.Rows()
    requires exists m <- tree :: m.version == version && after == Recorded(before, m, Repaired)
    ensures Planned(tree, Verb.Repair(version), TablesOf(before), TablesOf(after), ok)
  {
    hide HoldsRetired, Planned;
    var m :| m in tree && m.version == version && after == Recorded(before, m, Repaired);
    assert after.Rows() == before.Rows() + map[version := Row(m.checksum, Repaired)];
    OnePlanned(
      tree, Verb.Repair(version), TablesOf(before), Overwrite(map[version := Row(m.checksum, Repaired)]), ok);
  }

  lemma {:induction false} NothingPlanned(tree: seq<Migration>, verb: Verb, t: Tables)
    ensures Planned(tree, verb, t, t, false) && Planned(tree, verb, t, t, true)
  {
    var ws: seq<Write> := [];
    assert Plans(tree, verb, t, ws) && ws[..0] == [] && WriteAll(t, ws[..0]) == t;
  }

  lemma {:induction false} OnePlanned(tree: seq<Migration>, verb: Verb, t: Tables, w: Write, ok: bool)
    requires Plans(tree, verb, t, [w])
    ensures Planned(tree, verb, t, Written(t, w), ok)
  {
    hide Plans, WriteAll;
    WriteOne(t, w);
    assert [w][..1] == [w];
  }

  // What an adoption comes to, as one insertion.
  lemma {:induction false} AdoptedMay(
    window: seq<Migration>, ledger: Ledger, floor: int, raw: seq<ManifestEntry>, entries: map<nat, Evidence>,
    start: Db, after: Db, said: seq<Event>)
    requires Manifested(entries, raw, window)
    requires start.ledger == Some(ledger) && Adopts(window, ledger, floor, entries, start, after, said)
    ensures exists rows ::
      && MayAdopt(window, ledger, floor, raw, rows)
      && after == start.(ledger := Some(ledger + rows))
  {
    hide Intact, Answered, AdoptAll, RecordRows, Proven, Manifested;
    var candidates := Unrecorded(window, ledger);
    var results :|
      && Coherent(candidates, floor, entries, results)
      && Answered(candidates, entries, results, said)
      && after == AdoptAll(start, Proven(candidates, results));
    AdoptedRows(start, Proven(candidates, results));
    RecordOnto(ledger, Proven(candidates, results), Adopted);
    assert MayAdopt(window, ledger, floor, raw, Adoptions(window, ledger, results));
  }

  lemma {:induction false} ApplyIsPlanned(
    tree: seq<Migration>, bound: Option<nat>, before: Db, after: Db, ok: bool)
    requires ok || (after != before && after != WithTable(before))
    requires ApplyEnds(tree, Within(tree, bound), before, after, ok)
    ensures Planned(tree, Apply(bound), TablesOf(before), TablesOf(after), ok)
  {
    hide Accepts, ToApply, CompletedAll, RecordRows, WriteAll, Completed;
    var t := TablesOf(before);
    var plan := ToApply(Within(tree, bound), before.Rows());
    var k: nat :| EndsAfter(WithTable(before), plan, k, after, ok);
    CompletedRows(WithTable(before), plan[..k]);
    WriteEachIsRecord(t, plan, k);
    assert Plans(tree, Apply(bound), t, InsertEach(plan));
  }

  lemma {:induction false} ManualIsPlanned(
    tree: seq<Migration>, version: nat, before: Db, after: Db, ok: bool)
    requires ok || (after != before && after != WithTable(before))
    requires ManualEnds(tree, version, before, after, ok)
    ensures Planned(tree, ApplyManual(version), TablesOf(before), TablesOf(after), ok)
  {
    hide ManualAccepts, WriteAll, Planned, PlayFile;
    var t := TablesOf(before);
    var m :| m in tree && m.version == version
      && ManualAccepts(tree, m, before.Rows()) && ManualRan(m, before, after, ok);
    if after == Completed(WithTable(before), m) {
      assert after.Rows() == before.Rows() + map[m.version := Row(m.checksum, Applied)];
      OnePlanned(tree, ApplyManual(version), t, InsertOne(m), ok);
    } else {
      NothingPlanned(tree, ApplyManual(version), t);
    }
  }

  // ----- no gap, whoever runs when -----

  lemma {:induction false} PlansKeepNoGap(tree: seq<Migration>, verb: Verb, t: Tables, ws: seq<Write>, k: nat)
    requires IsTree(tree) && NoGap(tree, t.rows) && Plans(tree, verb, t, ws) && k <= |ws|
    ensures NoGap(tree, WriteAll(t, ws[..k]).rows)
  {
    hide NoGap, IsTree, Accepts, MayAdopt, OnlyRetired, HoldsRetired, WriteAll;
    NothingWritten(t);
    if k == 0 {
      assert ws[..0] == [];
    } else if verb.Apply? {
      var plan := ToApply(Within(tree, verb.bound), t.rows);
      WriteEachIsRecord(t, plan, k);
      PrefixOpensNoGap(tree, verb.bound, t.rows, k);
    } else {
      assert |ws| == 1 && ws[..k] == [ws[0]];
      WriteOne(t, ws[0]);
      OneWriteKeepsNoGap(tree, verb, t, ws[0]);
    }
  }

  lemma {:induction false} OneWriteKeepsNoGap(tree: seq<Migration>, verb: Verb, t: Tables, w: Write)
    requires IsTree(tree) && NoGap(tree, t.rows) && Plans(tree, verb, t, [w]) && !verb.Apply?
    ensures NoGap(tree, Written(t, w).rows)
  {
    hide NoGap, IsTree, MayAdopt, OnlyRetired, HoldsRetired, ManualAccepts;
    match verb {
      case Apply(_) =>
      case ApplyManual(version) =>
        var m :| m in tree && m.version == version && ManualAccepts(tree, m, t.rows) && [w] == [InsertOne(m)];
        assert [w][0] == w && [InsertOne(m)][0] == InsertOne(m);
        ManualOpensNoGap(tree, m, t.rows);
      case Adopt(bound, floor, raw) =>
        var rows :| MayAdopt(Within(tree, bound), t.rows, floor, raw, rows) && [w] == [Insert(rows)];
        assert [w][0] == w && [Insert(rows)][0] == Insert(rows);
        MayAdoptNoGap(tree, bound, t.rows, floor, raw, rows);
      case ConvertLedger(floor, raw) =>
        var rows :| MayAdopt(tree, map[], floor, raw, rows) && [w] == [Replace(rows)];
        assert [w][0] == w && [Replace(rows)][0] == Replace(rows) && map[] + rows == rows;
        NothingIsNoGap(tree);
        WithinAll(tree);
        MayAdoptNoGap(tree, None, map[], floor, raw, rows);
      case Repair(version) =>
        RepairKeepsNoGap(tree, t.rows, Written(t, w).rows);
    }
  }

  lemma {:induction false} MayAdoptNoGap(
    tree: seq<Migration>, bound: Option<nat>, ledger: Ledger, floor: int, raw: seq<ManifestEntry>, rows: Ledger)
    requires IsTree(tree) && NoGap(tree, ledger) && MayAdopt(Within(tree, bound), ledger, floor, raw, rows)
    ensures NoGap(tree, ledger + rows)
  {
    hide NoGap, Intact, IsTree, Manifested;
    var window := Within(tree, bound);
    var entries, results :|
      && Manifested(entries, raw, window)
      && Coherent(Unrecorded(window, ledger), floor, entries, results)
      && rows == Adoptions(window, ledger, results);
    AdoptionOpensNoGap(tree, window, bound, ledger, floor, entries, results);
    RecordOnto(ledger, Proven(Unrecorded(window, ledger), results), Adopted);
  }

  lemma {:induction false} SerialKeepsNoGap(tree: seq<Migration>, start: Tables, entries: seq<Entry>, end: Tables)
    requires IsTree(tree) && NoGap(tree, start.rows) && Serial(tree, start, entries, end)
    ensures NoGap(tree, end.rows)
    decreases |entries|
  {
    hide NoGap, IsTree, Plans, WriteAll;
    if entries != [] {
      var last := entries[|entries| - 1];
      var before: Tables, plan: seq<Write> :|
        && Serial(tree, start, entries[..|entries| - 1], before)
        && Plans(tree, last.verb, before, plan)
        && last.writes <= plan
        && end == WriteAll(before, last.writes);
      SerialKeepsNoGap(tree, start, entries[..|entries| - 1], before);
      assert plan[..|last.writes|] == last.writes;
      PlansKeepNoGap(tree, last.verb, before, plan, |last.writes|);
    }
  }

  // However any number of runners interleave, and wherever any of them dies, no
  // file below the head of the ledger is left unrecorded that may not be.
  lemma {:induction false} NoGapWhoeverRuns(tree: seq<Migration>, states: seq<System>, steps: seq<Step>, k: nat)
    requires IsTree(tree) && Behaviour(tree, states, steps) && k < |states|
    requires NoGap(tree, states[0].tables.rows)
    ensures NoGap(tree, states[k].tables.rows)
  {
    hide NoGap, IsTree, Serial, AtWork, Behaviour;
    BehaviourKeepsInv(tree, states, steps, k);
    SerialKeepsNoGap(tree, states[0].tables, states[k].entries, states[k].tables);
  }

  // ----- no version is inserted twice -----

  ghost predicate FreshInserts(t: Tables, ws: seq<Write>) {
    forall k :: 0 <= k < |ws| && ws[k].Insert? ==> ws[k].rows.Keys !! WriteAll(t, ws[..k]).rows.Keys
  }

  lemma {:induction false} PlansAreFresh(tree: seq<Migration>, verb: Verb, t: Tables, ws: seq<Write>)
    requires IsTree(tree) && Plans(tree, verb, t, ws)
    ensures FreshInserts(t, ws)
  {
    hide Accepts, MayAdopt, OnlyRetired, HoldsRetired, WriteAll, IsTree;
    if ws != [] {
      match verb {
        case Apply(bound) => ApplyIsFresh(tree, bound, t);
        case ApplyManual(version) => NothingBefore(t, ws);
        case Adopt(bound, floor, raw) =>
          NothingBefore(t, ws);
          var rows :| MayAdopt(Within(tree, bound), t.rows, floor, raw, rows) && ws == [Insert(rows)];
          AdoptIsFresh(Within(tree, bound), t.rows, floor, raw, rows);
        case _ => NothingBefore(t, ws);
      }
    }
  }

  lemma {:induction false} NothingBefore(t: Tables, ws: seq<Write>)
    requires ws != []
    ensures WriteAll(t, ws[..0]) == t
  {
  }

  lemma {:induction false} AdoptIsFresh(
    window: seq<Migration>, ledger: Ledger, floor: int, raw: seq<ManifestEntry>, rows: Ledger)
    requires MayAdopt(window, ledger, floor, raw, rows)
    ensures rows.Keys !! ledger.Keys
  {
    var candidates := Unrecorded(window, ledger);
    var entries, results :|
      && Manifested(entries, raw, window)
      && Coherent(candidates, floor, entries, results)
      && rows == Adoptions(window, ledger, results);
    var proven := Proven(candidates, results);
    RecordedKeys(map[], proven, Adopted);
    hide *;
    forall v | v in rows ensures v !in ledger {
      InTreeUnrecorded(proven, ledger, v);
    }
  }

  lemma {:induction false} InTreeUnrecorded(ms: seq<Migration>, ledger: Ledger, v: nat)
    requires InTree(ms, v) && forall m <- ms :: m.version !in ledger
    ensures v !in ledger
  {
  }

  lemma {:induction false} ApplyIsFresh(tree: seq<Migration>, bound: Option<nat>, t: Tables)
    requires IsTree(tree)
    ensures FreshInserts(t, InsertEach(ToApply(Within(tree, bound), t.rows)))
  {
    var plan := ToApply(Within(tree, bound), t.rows);
    var ws := InsertEach(plan);
    PlanIsOrdered(tree, bound, t.rows);
    PlanIsUnrecorded(Within(tree, bound), t.rows);
    hide ToApply, Within, WriteAll, IsTree, Ordered;
    forall k | 0 <= k < |ws| ensures ws[k].rows.Keys !! WriteAll(t, ws[..k]).rows.Keys {
      WriteEachIsRecord(t, plan, k);
      NextIsNew(plan, t.rows, k);
    }
  }

  lemma {:induction false} NextIsNew(plan: seq<Migration>, ledger: Ledger, k: nat)
    requires Ordered(plan) && k < |plan| && forall m <- plan :: m.version !in ledger
    ensures plan[k].version !in RecordRows(ledger, plan[..k], Applied)
  {
    hide RecordRows, Ordered;
    RecordedKeys(ledger, plan[..k], Applied);
    assert plan[k..][0] == plan[k] && plan[k] in plan[k..] && plan[k] in plan;
    NotAmongEarlier(plan, k, plan[k].version);
  }

  function NextWrite(s: System, i: nat): Option<Write> {
    if i < |s.runners| && s.runners[i].place.Working? && s.runners[i].place.rest != [] then
      Some(s.runners[i].place.rest[0])
    else None
  }

  // Every row a run inserts is for a version the ledger did not hold, whoever
  // else has run meanwhile.
  lemma {:induction false} NoVersionTwice(tree: seq<Migration>, states: seq<System>, steps: seq<Step>, k: nat)
    requires IsTree(tree) && Behaviour(tree, states, steps) && k < |steps| && steps[k].Commit?
    ensures
      var w := NextWrite(states[k], steps[k].i);
      && w.Some? && states[k + 1].tables == Written(states[k].tables, w.value)
      && (w.value.Insert? ==> w.value.rows.Keys !! states[k].tables.rows.Keys)
  {
    hide Plans, Serial, WriteAll;
    BehaviourKeepsInv(tree, states, steps, k);
    assert Next(tree, states[k], states[k + 1], steps[k]);
    var s, i := states[k], steps[k].i;
    var rest := s.runners[i].place.rest;
    var last := s.entries[|s.entries| - 1];
    assert AtWork(tree, states[0].tables, s, rest);
    var before: Tables :|
      && Serial(tree, states[0].tables, s.entries[..|s.entries| - 1], before)
      && Plans(tree, last.verb, before, last.writes + rest)
      && s.tables == WriteAll(before, last.writes);
    PlansAreFresh(tree, last.verb, before, last.writes + rest);
    var ws := last.writes + rest;
    assert ws[|last.writes|] == rest[0] && ws[..|last.writes|] == last.writes;
  }
}
