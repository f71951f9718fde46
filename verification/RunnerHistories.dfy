// What holds over whole histories of runs: any verbs, in any order, each ending
// anywhere.

module RunnerHistories {
  import opened Chars
  import opened Migrations
  import opened Database
  import opened Transcripts
  import opened LedgerRules
  import opened Outcomes
  import opened Adoption
  import opened Verbs

  // One run: its verb, and all it said.
  datatype Run = Run(verb: Verb, said: seq<Event>)

  // `dbs` are the committed states between the runs, on one tree.
  ghost predicate History(tree: seq<Migration>, runs: seq<Run>, dbs: seq<Db>) {
    && |dbs| == |runs| + 1
    && forall i :: 0 <= i < |runs| ==> CanEnd(tree, runs[i], dbs[i], dbs[i + 1])
  }

  ghost predicate CanEnd(tree: seq<Migration>, run: Run, before: Db, after: Db) {
    || RunEnds(tree, run.verb, before, after, run.said, true)
    || RunEnds(tree, run.verb, before, after, run.said, false)
  }

  // ----- rows -----

  function RecordRows(ledger: Ledger, ms: seq<Migration>, status: Status): Ledger {
    if ms == [] then ledger
    else
      var last := ms[|ms| - 1];
      RecordRows(ledger, ms[..|ms| - 1], status)[last.version := Row(last.checksum, status)]
  }

  lemma {:induction false} CompletedRows(db: Db, ms: seq<Migration>)
    requires db.ledger.Some?
    ensures
      var done := CompletedAll(db, ms);
      done.ledger == Some(RecordRows(db.Rows(), ms, Applied)) && done.legacy == db.legacy
  {
    if ms != [] {
      CompletedRows(db, ms[..|ms| - 1]);
    }
  }

  lemma {:induction false} AdoptedRows(db: Db, ms: seq<Migration>)
    requires db.ledger.Some?
    ensures
      var done := AdoptAll(db, ms);
      && done.ledger == Some(RecordRows(db.Rows(), ms, Adopted))
      && done.legacy == db.legacy && done.effects == db.effects
  {
    if ms != [] {
      AdoptedRows(db, ms[..|ms| - 1]);
    }
  }

  lemma {:induction false} RecordedKeys(ledger: Ledger, ms: seq<Migration>, status: Status)
    ensures
      var r := RecordRows(ledger, ms, status);
      && (forall v :: v in r <==> v in ledger || InTree(ms, v))
      && (forall v <- r :: (v in ledger && r[v] == ledger[v]) || Fits(ms, v, r[v]))
  {
    if ms != [] {
      var last, rest := ms[|ms| - 1], ms[..|ms| - 1];
      RecordedKeys(ledger, rest, status);
      assert ms == rest + [last];
      assert forall m :: m in ms <==> m in rest || m == last;
      var r, q := RecordRows(ledger, ms, status), RecordRows(ledger, rest, status);
      forall v | v in r ensures (v in ledger && r[v] == ledger[v]) || Fits(ms, v, r[v]) {
        if v == last.version {
          assert last in ms;
        } else if !(v in ledger && q[v] == ledger[v]) {
          var m :| m in rest && m.version == v && m.checksum == q[v].checksum;
          assert m in ms;
        }
      }
      forall v ensures v in r <==> v in ledger || InTree(ms, v) {
        if InTree(rest, v) {
          var m :| m in rest && m.version == v;
          assert m in ms;
        }
        if v == last.version {
          assert last in ms;
        }
      }
    }
  }

  lemma {:induction false} RecordRowsAppend(ledger: Ledger, a: seq<Migration>, b: seq<Migration>, status: Status)
    ensures
      RecordRows(RecordRows(ledger, a, status), b, status) == RecordRows(ledger, a + b, status)
  {
    if b == [] {
      assert a + b == a;
    } else {
      RecordRowsAppend(ledger, a, b[..|b| - 1], status);
      assert (a + b)[..|a + b| - 1] == a + b[..|b| - 1];
    }
  }

  lemma {:induction false} OrdinaryIsOrdered(ms: seq<Migration>)
    requires Ordered(ms)
    ensures Ordered(Ordinary(ms))
  {
    hide Ordered;
    if ms != [] {
      var rest := Ordinary(ms[1..]);
      OrderedTail(ms);
      OrdinaryIsOrdered(ms[1..]);
      OrderedCons(ms[0], rest);
      assert Ordinary(ms) == if ms[0].manual then rest else [ms[0]] + rest;
    }
  }

  lemma {:induction false} PlanIsOrdered(tree: seq<Migration>, bound: Option<nat>, ledger: Ledger)
    requires IsTree(tree)
    ensures Ordered(ToApply(Within(tree, bound), ledger))
  {
    WithinIsTree(tree, bound);
    UnrecordedIsTree(Within(tree, bound), ledger);
    OrdinaryIsOrdered(Unrecorded(Within(tree, bound), ledger));
  }

  // ----- no gap below the head -----

  ghost predicate NoGap(tree: seq<Migration>, ledger: Ledger) {
    forall m <- tree ::
      BelowHead(ledger, m.version) && !m.manual && !m.reapplySafe ==> m.version in ledger
  }

  lemma {:induction false} LowerComesFirst(ms: seq<Migration>, i: nat, j: nat)
    requires Ordered(ms) && i < |ms| && j < |ms| && ms[i].version < ms[j].version
    ensures i < j
  {
  }

  // A prefix of apply's plan opens no gap.
  lemma {:induction false} PrefixOpensNoGap(
    tree: seq<Migration>, bound: Option<nat>, ledger: Ledger, k: nat)
    requires IsTree(tree) && NoGap(tree, ledger)
    requires k <= |ToApply(Within(tree, bound), ledger)|
    ensures NoGap(tree, RecordRows(ledger, ToApply(Within(tree, bound), ledger)[..k], Applied))
  {
    var window := Within(tree, bound);
    var plan := ToApply(window, ledger);
    var rows := RecordRows(ledger, plan[..k], Applied);
    PlanIsOrdered(tree, bound, ledger);
    RecordedKeys(ledger, plan[..k], Applied);
    hide RecordRows, Within, Ordinary, Unrecorded, Ordered;
    forall m | m in tree && BelowHead(rows, m.version) && !m.manual && !m.reapplySafe
      ensures m.version in rows
    {
      var v :| v in rows && m.version < v;
      if v !in ledger && m.version !in ledger {
        var n :| n in plan[..k] && n.version == v;
        assert n in plan && n in Unrecorded(window, ledger) && n in window;
        assert m in window && m in Unrecorded(window, ledger) && m in plan;
        EarlierIsDone(plan, k, m, n);
      }
    }
  }

  // What stands before a file of a prefix is in the prefix.
  lemma {:induction false} EarlierIsDone(plan: seq<Migration>, k: nat, m: Migration, n: Migration)
    requires Ordered(plan) && k <= |plan| && n in plan[..k] && m in plan && m.version < n.version
    ensures InTree(plan[..k], m.version)
  {
    var i :| 0 <= i < k && plan[i] == n;
    var j :| 0 <= j < |plan| && plan[j] == m;
    LowerComesFirst(plan, j, i);
    assert plan[..k][j] == m;
  }

  // Recording what coherent evidence proves opens no gap.
  lemma {:induction false} AdoptionOpensNoGap(
    tree: seq<Migration>, window: seq<Migration>, bound: Option<nat>, ledger: Ledger, floor: int,
    entries: map<nat, Evidence>, results: Results)
    requires IsTree(tree) && window == Within(tree, bound) && NoGap(tree, ledger)
    requires Coherent(Unrecorded(window, ledger), floor, entries, results)
    ensures NoGap(tree, RecordRows(ledger, Proven(Unrecorded(window, ledger), results), Adopted))
  {
    var candidates := Unrecorded(window, ledger);
    var proven := Proven(candidates, results);
    var rows := RecordRows(ledger, proven, Adopted);
    RecordedKeys(ledger, proven, Adopted);
    forall m | m in tree && BelowHead(rows, m.version) && !m.manual && !m.reapplySafe
      ensures m.version in rows
    {
      var v :| v in rows && m.version < v;
      if v !in ledger && m.version !in ledger {
        var n :| n in proven && n.version == v;
        assert m in window && m in candidates;
        assert results[m.version];
        assert m in proven;
      }
    }
  }

  lemma {:induction false} RunKeepsNoGap(
    tree: seq<Migration>, verb: Verb, before: Db, after: Db, said: seq<Event>, ok: bool)
    requires IsTree(tree) && NoGap(tree, before.Rows()) && RunEnds(tree, verb, before, after, said, ok)
    ensures NoGap(tree, after.Rows())
  {
    hide NoGap, Accepts, Coherent, Intact, OnlyRetired, Answered, RowsShown, Readable, Manifested;
    var rows := before.Rows();
    match verb {
      case Apply(bound) => ApplyKeepsNoGap(tree, bound, before, after, ok);
      case ApplyManual(version) => ManualKeepsNoGap(tree, version, before, after, ok);
      case Adopt(bound, floor, raw) =>
        var entries :| Manifested(entries, raw, Within(tree, bound))
          && AdoptEnds(tree, Within(tree, bound), floor, entries, before, after, said, ok);
        var window := Within(tree, bound);
        if after != before && after != WithTable(before) {
          AdoptsKeepsNoGap(tree, bound, rows, floor, entries, WithTable(before), after, said);
        }
      case ConvertLedger(floor, raw) =>
        var entries :| Manifested(entries, raw, tree)
          && ConvertEnds(tree, floor, entries, before, after, said, ok);
        if after != before {
          NothingIsNoGap(tree);
          WithinAll(tree);
          AdoptsKeepsNoGap(tree, None, map[], floor, entries, Retired(before), after, said);
        }
      case Repair(version) =>
        if after != before && after != WithTable(before) {
          RepairKeepsNoGap(tree, rows, after.Rows());
        }
    }
  }

  lemma {:induction false} RepairKeepsNoGap(tree: seq<Migration>, rows: Ledger, after: Ledger)
    requires NoGap(tree, rows) && after.Keys == rows.Keys
    ensures NoGap(tree, after)
  {
    assert forall v: nat :: BelowHead(after, v) <==> BelowHead(rows, v) by {
      forall v: nat ensures BelowHead(after, v) <==> BelowHead(rows, v) {
        if BelowHead(after, v) {
          var u :| u in after && v < u;
          assert u in rows.Keys;
        }
        if BelowHead(rows, v) {
          var u :| u in rows && v < u;
          assert u in after.Keys;
        }
      }
    }
    forall m | m in tree && BelowHead(after, m.version) && !m.manual && !m.reapplySafe
      ensures m.version in after
    {
      assert m.version in rows.Keys;
    }
  }

  lemma {:induction false} NothingIsNoGap(tree: seq<Migration>)
    ensures NoGap(tree, map[])
  {
  }

  lemma {:induction false} WithinAll(tree: seq<Migration>)
    ensures Within(tree, None) == tree
  {
    if tree != [] {
      WithinAll(tree[1..]);
    }
  }

  lemma {:induction false} AdoptsKeepsNoGap(
    tree: seq<Migration>, bound: Option<nat>, ledger: Ledger, floor: int, entries: map<nat, Evidence>,
    start: Db, after: Db, said: seq<Event>)
    requires IsTree(tree) && NoGap(tree, ledger) && start.ledger == Some(ledger)
    requires Adopts(Within(tree, bound), ledger, floor, entries, start, after, said)
    ensures NoGap(tree, after.Rows())
  {
    hide NoGap, Intact, Answered;
    var window := Within(tree, bound);
    var results :|
      && Coherent(Unrecorded(window, ledger), floor, entries, results)
      && Answered(Unrecorded(window, ledger), entries, results, said)
      && after == AdoptAll(start, Proven(Unrecorded(window, ledger), results));
    AdoptedRows(start, Proven(Unrecorded(window, ledger), results));
    AdoptionOpensNoGap(tree, window, bound, ledger, floor, entries, results);
  }

  lemma {:induction false} ApplyKeepsNoGap(
    tree: seq<Migration>, bound: Option<nat>, before: Db, after: Db, ok: bool)
    requires IsTree(tree) && NoGap(tree, before.Rows())
    requires ApplyEnds(tree, Within(tree, bound), before, after, ok)
    ensures NoGap(tree, after.Rows())
  {
    hide NoGap, Accepts;
    var start, plan := WithTable(before), ToApply(Within(tree, bound), before.Rows());
    if after != before && after != start {
      var k: nat :| EndsAfter(start, plan, k, after, ok);
      PrefixOpensNoGap(tree, bound, before.Rows(), k);
      CompletedRows(start, plan[..k]);
    }
  }

  lemma {:induction false} ManualKeepsNoGap(
    tree: seq<Migration>, version: nat, before: Db, after: Db, ok: bool)
    requires IsTree(tree) && NoGap(tree, before.Rows()) && ManualEnds(tree, version, before, after, ok)
    ensures NoGap(tree, after.Rows())
  {
    hide NoGap, ManualAccepts;
    if after.Rows() != before.Rows() {
      var m :| m in tree && m.version == version
        && ManualAccepts(tree, m, before.Rows()) && ManualRan(m, before, after, ok);
      ManualOpensNoGap(tree, m, before.Rows());
      assert after.Rows() == before.Rows() + map[m.version := Row(m.checksum, Applied)];
    }
  }

  lemma {:induction false} ManualOpensNoGap(tree: seq<Migration>, m: Migration, ledger: Ledger)
    requires NoGap(tree, ledger) && ManualAccepts(tree, m, ledger)
    ensures NoGap(tree, ledger + map[m.version := Row(m.checksum, Applied)])
  {
    hide Intact;
    var rows := ledger + map[m.version := Row(m.checksum, Applied)];
    forall n | n in tree && BelowHead(rows, n.version) && !n.manual && !n.reapplySafe
      ensures n.version in rows
    {
      var v :| v in rows && n.version < v;
      if v in ledger {
        assert BelowHead(ledger, n.version);
      }
    }
  }

  // Over any history on one tree, from a state without a gap, none opens.
  lemma {:induction false} HistoryKeepsNoGap(tree: seq<Migration>, runs: seq<Run>, dbs: seq<Db>)
    requires IsTree(tree) && History(tree, runs, dbs) && NoGap(tree, dbs[0].Rows())
    ensures forall db <- dbs :: NoGap(tree, db.Rows())
    decreases |runs|
  {
    hide NoGap, RunEnds, IsTree;
    if runs != [] {
      var run := runs[0];
      assert CanEnd(tree, run, dbs[0], dbs[0 + 1]);
      RunKeepsNoGap(
        tree, run.verb, dbs[0], dbs[1], run.said, RunEnds(tree, run.verb, dbs[0], dbs[1], run.said, true));
      TailHistory(tree, runs, dbs);
      HistoryKeepsNoGap(tree, runs[1..], dbs[1..]);
      assert dbs == [dbs[0]] + dbs[1..];
    }
  }

  lemma {:induction false} TailHistory(tree: seq<Migration>, runs: seq<Run>, dbs: seq<Db>)
    requires runs != [] && History(tree, runs, dbs)
    ensures History(tree, runs[1..], dbs[1..])
  {
    hide CanEnd;
    forall i | 0 <= i < |runs| - 1
      ensures CanEnd(tree, runs[1..][i], dbs[1..][i], dbs[1..][i + 1])
    {
      assert runs[1..][i] == runs[i + 1] && dbs[1..][i] == dbs[i + 1];
      assert dbs[1..][i + 1] == dbs[i + 1 + 1];
    }
  }

  // ----- no row without its evidence -----

  // The manifest a verb was given.
  function GivenTo(verb: Verb): Given {
    match verb
    case Adopt(_, floor, raw) => Given(floor, raw)
    case ConvertLedger(floor, raw) => Given(floor, raw)
    case _ => NOTHING_GIVEN
  }

  lemma {:induction false} RecordedStatus(ledger: Ledger, ms: seq<Migration>, status: Status)
    ensures
      var r := RecordRows(ledger, ms, status);
      forall v <- r ::
        || (v in ledger && r[v] == ledger[v])
        || exists m <- ms :: m.version == v && r[v] == Row(m.checksum, status)
  {
    if ms != [] {
      var last, rest := ms[|ms| - 1], ms[..|ms| - 1];
      RecordedStatus(ledger, rest, status);
      assert forall m :: m in ms <==> m in rest || m == last;
      assert last in ms;
    }
  }

  // What an adoption recorded was proven by what it asked.
  lemma {:induction false} AdoptionIsShown(
    window: seq<Migration>, ledger: Ledger, floor: int, raw: seq<ManifestEntry>, entries: map<nat, Evidence>,
    corpus: seq<Migration>, start: Db, after: Db, said: seq<Event>)
    requires start.ledger == Some(ledger) && Adopts(window, ledger, floor, entries, start, after, said)
    requires Manifested(entries, raw, window) && Readable(raw, floor, window, corpus)
    ensures RowsShown(window, Given(floor, raw), ledger, after.Rows(), said)
  {
    hide Intact, Shown, RecordRows, AdoptAll, Manifested, Readable, Proved;
    var candidates := Unrecorded(window, ledger);
    var results :|
      && Coherent(candidates, floor, entries, results)
      && Answered(candidates, entries, results, said)
      && after == AdoptAll(start, Proven(candidates, results));
    var proven := Proven(candidates, results);
    AdoptedRows(start, proven);
    RecordedStatus(ledger, proven, Adopted);
    hide Coherent, Proven;
    var rows := after.Rows();
    forall v | v in rows && !(v in ledger && rows[v] == ledger[v])
      ensures RowShown(window, Given(floor, raw), v, rows[v], said)
    {
      var m :| m in proven && m.version == v && rows[v] == Row(m.checksum, Adopted);
      assert m in candidates && m in window;
      ShownIsProved(entries, raw, floor, window, corpus, m, said);
    }
  }

  // What the entries make of the manifest proves the file.
  lemma {:induction false} ShownIsProved(
    entries: map<nat, Evidence>, raw: seq<ManifestEntry>, floor: int, window: seq<Migration>,
    corpus: seq<Migration>, m: Migration, said: seq<Event>)
    requires Manifested(entries, raw, window) && Readable(raw, floor, window, corpus) && m in window
    requires m.version in entries && Shown(entries[m.version], true, said)
    ensures Proved(Given(floor, raw), m, said)
  {
    hide Shown;
    if exists e <- raw :: e.version == m.version {
      var e :| e in raw && e.version == m.version;
      assert IsSound(e, floor);
    }
  }

  // Every row a run leaves was there, or rests on what the run said: an applied
  // row on its file run whole, an adopted one on its evidence.
  lemma {:induction false} RunIsShown(
    tree: seq<Migration>, verb: Verb, before: Db, after: Db, said: seq<Event>, ok: bool)
    requires RunEnds(tree, verb, before, after, said, ok)
    ensures RowsShown(tree, GivenTo(verb), before.Rows(), after.Rows(), said)
  {
    hide RowsShown, Adopts, ApplyEnds, ManualEnds, OnlyRetired, HoldsRetired, Readable, Manifested;
    match verb {
      case Apply(bound) =>
        MoreFiles(Within(tree, bound), tree, NOTHING_GIVEN, before.Rows(), after.Rows(), said);
      case ApplyManual(version) =>
      case Adopt(bound, floor, raw) =>
        var entries :| Manifested(entries, raw, Within(tree, bound))
          && AdoptEnds(tree, Within(tree, bound), floor, entries, before, after, said, ok);
        if after == before || after == WithTable(before) {
          SameRowsShown(tree, Given(floor, raw), before.Rows(), said);
        } else {
          AdoptionIsShown(
            Within(tree, bound), before.Rows(), floor, raw, entries, tree, WithTable(before), after, said);
          MoreFiles(Within(tree, bound), tree, Given(floor, raw), before.Rows(), after.Rows(), said);
        }
      case ConvertLedger(floor, raw) =>
        var entries :| Manifested(entries, raw, tree)
          && ConvertEnds(tree, floor, entries, before, after, said, ok);
        if after == before {
          SameRowsShown(tree, Given(floor, raw), before.Rows(), said);
        } else {
          AdoptionIsShown(tree, map[], floor, raw, entries, tree, Retired(before), after, said);
          ShownFromNothing(tree, Given(floor, raw), before.Rows(), after.Rows(), said);
        }
      case Repair(version) =>
        if after == before || after == WithTable(before) {
          SameRowsShown(tree, NOTHING_GIVEN, before.Rows(), said);
        } else {
          RepairIsShown(tree, version, before, after, said);
        }
    }
  }

  lemma {:induction false} SameRowsShown(
    files: seq<Migration>, given: Given, rows: Ledger, said: seq<Event>)
    ensures RowsShown(files, given, rows, rows, said)
  {
  }

  lemma {:induction false} ShownFromNothing(
    files: seq<Migration>, given: Given, before: Ledger, after: Ledger, said: seq<Event>)
    requires RowsShown(files, given, map[], after, said)
    ensures RowsShown(files, given, before, after, said)
  {
    hide RowShown;
  }

  lemma {:induction false} RepairIsShown(
    tree: seq<Migration>, version: nat, before: Db, after: Db, said: seq<Event>)
    requires exists m <- tree :: m.version == version && after == Recorded(before, m, Repaired)
    ensures RowsShown(tree, NOTHING_GIVEN, before.Rows(), after.Rows(), said)
  {
    var m :| m in tree && m.version == version && after == Recorded(before, m, Repaired);
    assert RowShown(tree, NOTHING_GIVEN, version, after.Rows()[version], said);
  }

  // A row was in the first ledger, or some run of the history shows it.
  ghost predicate Traced(tree: seq<Migration>, runs: seq<Run>, first: Ledger, version: nat, row: Row) {
    || (version in first && first[version] == row)
    || exists run <- runs :: RowShown(tree, GivenTo(run.verb), version, row, run.said)
  }

  // Over any history, no row is recorded without its evidence: every row of every
  // ledger was in the first, or some run ran its file whole, or was given a
  // manifest that asserts it at or below the floor, or asked the manifest's own
  // probe of it, or its postconditions in order, and had all answered true.
  lemma {:induction false} HistoryIsShown(tree: seq<Migration>, runs: seq<Run>, dbs: seq<Db>)
    requires History(tree, runs, dbs)
    ensures forall db <- dbs, v <- db.Rows() :: Traced(tree, runs, dbs[0].Rows(), v, db.Rows()[v])
    decreases |runs|
  {
    hide RunEnds, RowShown;
    if runs == [] {
      assert forall db <- dbs :: db == dbs[0];
    } else {
      var run := runs[0];
      assert CanEnd(tree, run, dbs[0], dbs[0 + 1]);
      RunIsShown(
        tree, run.verb, dbs[0], dbs[1], run.said, RunEnds(tree, run.verb, dbs[0], dbs[1], run.said, true));
      TailHistory(tree, runs, dbs);
      HistoryIsShown(tree, runs[1..], dbs[1..]);
      forall db, v | db in dbs && v in db.Rows()
        ensures Traced(tree, runs, dbs[0].Rows(), v, db.Rows()[v])
      {
        if db in dbs[1..] {
          TracedBack(tree, runs, dbs[0].Rows(), dbs[1].Rows(), v, db.Rows()[v]);
        } else {
          assert db == dbs[0];
        }
      }
    }
  }

  lemma {:induction false} TracedBack(
    tree: seq<Migration>, runs: seq<Run>, first: Ledger, second: Ledger, version: nat, row: Row)
    requires runs != [] && Traced(tree, runs[1..], second, version, row)
    requires RowsShown(tree, GivenTo(runs[0].verb), first, second, runs[0].said)
    ensures Traced(tree, runs, first, version, row)
  {
    hide RowShown;
    if version in second && second[version] == row {
      assert runs[0] in runs;
    }
  }
}
