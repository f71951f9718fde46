// Which statements' effects a history leaves: a wrapped file's work is there
// once, whole and recorded, or not at all, and apply never runs a gated file.

module RunnerEffects {
  import opened Chars
  import opened ExecutionMode
  import opened Migrations
  import opened LedgerRules
  import opened Outcomes
  import opened Adoption
  import opened Database
  import opened Transcripts
  import opened Verbs
  import opened RunnerHistories
  import opened RunnerProgress

  // One file's part of the committed work.
  function EffectsOf(effects: seq<Effect>, version: nat): seq<Effect> {
    if effects == [] then []
    else
      var last := effects[|effects| - 1];
      EffectsOf(effects[..|effects| - 1], version) + if last.version == version then [last] else []
  }

  lemma {:induction false} EffectsOfAppend(a: seq<Effect>, b: seq<Effect>, version: nat)
    ensures EffectsOf(a + b, version) == EffectsOf(a, version) + EffectsOf(b, version)
  {
    if b == [] {
      assert a + b == a;
    } else {
      EffectsOfAppend(a, b[..|b| - 1], version);
      assert (a + b)[..|a + b| - 1] == a + b[..|b| - 1];
    }
  }

  lemma {:induction false} WorkIsItsOwn(m: Migration, n: nat)
    requires n <= |m.statements|
    ensures EffectsOf(WorkOf(m, n), m.version) == WorkOf(m, n)
  {
    if n > 0 {
      WorkIsItsOwn(m, n - 1);
      var w := WorkOf(m, n);
      assert w[..|w| - 1] == WorkOf(m, n - 1);
    }
  }

  // A file's statements add to no other file's work, committed or open.
  lemma {:induction false} OneEffect(e: Effect, version: nat)
    requires e.version != version
    ensures forall effects: seq<Effect> :: effects + [] == effects
    ensures EffectsOf([e], version) == []
  {
  }

  lemma {:induction false} PlayOneTouchesNoOther(
    p: Play, s: Statement, e: Effect, effects: seq<Effect>, version: nat)
    requires e.version != version && EffectsOf(p.done, version) == EffectsOf(effects, version)
    requires p.open.Some? ==> EffectsOf(p.open.value, version) == EffectsOf(effects, version)
    ensures
      var q := PlayOne(p, s, e);
      && EffectsOf(q.done, version) == EffectsOf(effects, version)
      && (q.open.Some? ==> EffectsOf(q.open.value, version) == EffectsOf(effects, version))
  {
    OneEffect(e, version);
    hide EffectsOf;
    EffectsOfAppend(p.done, [e], version);
    if p.open.Some? {
      EffectsOfAppend(p.open.value, [e], version);
    }
  }

  lemma {:induction false} PlayTouchesNoOther(m: Migration, n: nat, effects: seq<Effect>, version: nat)
    requires n <= |m.statements| && version != m.version
    ensures
      var p := PlayFirst(m, n, effects);
      && EffectsOf(p.done, version) == EffectsOf(effects, version)
      && (p.open.Some? ==> EffectsOf(p.open.value, version) == EffectsOf(effects, version))
    decreases n
  {
    hide EffectsOf, PlayOne;
    if n > 0 {
      PlayTouchesNoOther(m, n - 1, effects, version);
      var q := PlayFirst(m, n - 1, effects);
      PlayOneTouchesNoOther(q, m.statements[n - 1], Effect(m.version, n - 1), effects, version);
    }
  }

  // ----- once, whole and recorded, or not at all -----

  ghost predicate RanOnce(m: Migration, db: Db) {
    var work := EffectsOf(db.effects, m.version);
    || work == []
    || (&& work == WorkOf(m, |m.statements|)
        && m.version in db.Rows() && db.Rows()[m.version].checksum == m.checksum)
  }

  ghost predicate AllRanOnce(tree: seq<Migration>, db: Db) {
    forall m <- tree :: m.mode == Wrapped ==> RanOnce(m, db)
  }

  lemma {:induction false} CompletingKeepsOnce(tree: seq<Migration>, m: Migration, db: Db)
    requires IsTree(tree) && m in tree && AllRanOnce(tree, db) && m.version !in db.Rows()
    ensures AllRanOnce(tree, Completed(db, m))
  {
    var after := Completed(db, m);
    forall n | n in tree && n.mode == Wrapped ensures RanOnce(n, after) {
      if n.version == m.version {
        VersionsApart(tree, m, n);
        PlayPlainWork(m, |m.statements|, db.effects);
        WorkIsItsOwn(m, |m.statements|);
        EffectsOfAppend(db.effects, WorkOf(m, |m.statements|), m.version);
        assert RanOnce(m, db);
      } else {
        PlayTouchesNoOther(m, |m.statements|, db.effects, n.version);
        assert RanOnce(n, db);
      }
    }
  }

  lemma {:induction false} StoppingKeepsOnce(tree: seq<Migration>, m: Migration, db: Db, after: Db)
    requires IsTree(tree) && m in tree && AllRanOnce(tree, db) && PartOf(db, m, after)
    ensures AllRanOnce(tree, after)
  {
    if m.mode != Wrapped {
      var k: nat :| k <= |m.statements| && after.effects == PlayFirst(m, k, db.effects).done;
      forall n | n in tree && n.mode == Wrapped ensures RanOnce(n, after) {
        if n.version == m.version {
          VersionsApart(tree, m, n);
        }
        PlayTouchesNoOther(m, k, db.effects, n.version);
        assert RanOnce(n, db);
      }
    }
  }

  lemma {:induction false} PrefixKeepsOnce(
    tree: seq<Migration>, start: Db, plan: seq<Migration>, k: nat)
    requires IsTree(tree) && Ordered(plan) && k <= |plan| && start.ledger.Some?
    requires forall m <- plan :: m in tree && m.version !in start.Rows()
    requires AllRanOnce(tree, start)
    ensures AllRanOnce(tree, CompletedAll(start, plan[..k]))
    decreases k
  {
    if k == 0 {
      assert plan[..0] == [];
    } else {
      PrefixKeepsOnce(tree, start, plan, k - 1);
      CompletedNext(start, plan, k - 1);
      NextIsUnrecorded(start, plan, k - 1);
      assert plan[k - 1] in plan;
      hide *;
      CompletingKeepsOnce(tree, plan[k - 1], CompletedAll(start, plan[..k - 1]));
    }
  }

  lemma {:induction false} NextIsUnrecorded(start: Db, plan: seq<Migration>, k: nat)
    requires Ordered(plan) && k < |plan| && start.ledger.Some?
    requires forall m <- plan :: m.version !in start.Rows()
    ensures plan[k].version !in CompletedAll(start, plan[..k]).Rows()
  {
    CompletedRows(start, plan[..k]);
    RecordedKeys(start.Rows(), plan[..k], Applied);
    assert plan[k..][0] == plan[k] && plan[k] in plan && plan[k] in plan[k..];
    NotAmongEarlier(plan, k, plan[k].version);
  }

  lemma {:induction false} SameWorkKeepsOnce(tree: seq<Migration>, before: Db, after: Db)
    requires AllRanOnce(tree, before) && after.effects == before.effects
    requires forall v <- before.Rows() :: v in after.Rows() && after.Rows()[v] == before.Rows()[v]
    ensures AllRanOnce(tree, after)
  {
    forall m | m in tree && m.mode == Wrapped ensures RanOnce(m, after) {
      assert RanOnce(m, before);
    }
  }

  lemma {:induction false} ApplyKeepsOnce(
    tree: seq<Migration>, bound: Option<nat>, before: Db, after: Db, ok: bool)
    requires IsTree(tree) && AllRanOnce(tree, before)
    requires ApplyEnds(tree, Within(tree, bound), before, after, ok)
    ensures AllRanOnce(tree, after)
  {
    hide Accepts, AllRanOnce, Completed, PartOf;
    var start, plan := WithTable(before), ToApply(Within(tree, bound), before.Rows());
    SameWorkKeepsOnce(tree, before, start);
    if after != before && after != start {
      var k: nat :| EndsAfter(start, plan, k, after, ok);
      PlanIsOrdered(tree, bound, before.Rows());
      PlanIsUnrecorded(Within(tree, bound), before.Rows());
      PrefixKeepsOnce(tree, start, plan, k);
      if after != CompletedAll(start, plan[..k]) {
        assert plan[k] in plan;
        StoppingKeepsOnce(tree, plan[k], CompletedAll(start, plan[..k]), after);
      }
    }
  }

  lemma {:induction false} ManualKeepsOnce(
    tree: seq<Migration>, version: nat, before: Db, after: Db, ok: bool)
    requires IsTree(tree) && AllRanOnce(tree, before) && ManualEnds(tree, version, before, after, ok)
    ensures AllRanOnce(tree, after)
  {
    hide AllRanOnce, Completed, PartOf, Intact;
    var start := WithTable(before);
    SameWorkKeepsOnce(tree, before, start);
    if after != before && after != start {
      var m :| m in tree && m.version == version
        && ManualAccepts(tree, m, before.Rows()) && ManualRan(m, before, after, ok);
      CompletingKeepsOnce(tree, m, start);
      if after != Completed(start, m) {
        StoppingKeepsOnce(tree, m, start, after);
      }
    }
  }

  lemma {:induction false} AdoptKeepsOnce(
    tree: seq<Migration>, window: seq<Migration>, ledger: Ledger, floor: int,
    entries: map<nat, Evidence>, start: Db, after: Db, said: seq<Event>)
    requires AllRanOnce(tree, start) && start.ledger == Some(ledger)
    requires Adopts(window, ledger, floor, entries, start, after, said)
    ensures AllRanOnce(tree, after)
  {
    hide AllRanOnce, Intact, Answered;
    var results :|
      && Coherent(Unrecorded(window, ledger), floor, entries, results)
      && Answered(Unrecorded(window, ledger), entries, results, said)
      && after == AdoptAll(start, Proven(Unrecorded(window, ledger), results));
    var proven := Proven(Unrecorded(window, ledger), results);
    AdoptedRows(start, proven);
    RecordedKeys(ledger, proven, Adopted);
    hide AdoptAll, RecordRows;
    forall v | v in ledger ensures after.Rows()[v] == ledger[v] {
      assert !InTree(proven, v);
    }
    SameWorkKeepsOnce(tree, start, after);
  }

  lemma {:induction false} ConvertKeepsOnce(tree: seq<Migration>, before: Db)
    requires AllRanOnce(tree, before) && before.ledger.Some? && OnlyRetired(before.ledger.value, tree)
    ensures AllRanOnce(tree, Retired(before))
  {
    forall m | m in tree && m.mode == Wrapped ensures RanOnce(m, Retired(before)) {
      assert RanOnce(m, before);
    }
  }

  lemma {:induction false} RepairKeepsOnce(tree: seq<Migration>, m: Migration, before: Db)
    requires IsTree(tree) && m in tree && AllRanOnce(tree, before)
    ensures AllRanOnce(tree, Recorded(before, m, Repaired))
  {
    forall n | n in tree && n.mode == Wrapped ensures RanOnce(n, Recorded(before, m, Repaired)) {
      assert RanOnce(n, before);
      if n.version == m.version {
        VersionsApart(tree, m, n);
      }
    }
  }

  lemma {:induction false} RunKeepsOnce(
    tree: seq<Migration>, verb: Verb, before: Db, after: Db, said: seq<Event>, ok: bool)
    requires IsTree(tree) && AllRanOnce(tree, before) && RunEnds(tree, verb, before, after, said, ok)
    ensures AllRanOnce(tree, after)
  {
    hide AllRanOnce, Accepts, Adopts, OnlyRetired, IsTree, HoldsRetired, RowsShown, Readable, Manifested;
    SameWorkKeepsOnce(tree, before, WithTable(before));
    match verb {
      case Apply(bound) => ApplyKeepsOnce(tree, bound, before, after, ok);
      case ApplyManual(version) => ManualKeepsOnce(tree, version, before, after, ok);
      case Adopt(bound, floor, raw) =>
        var entries :| Manifested(entries, raw, Within(tree, bound))
          && AdoptEnds(tree, Within(tree, bound), floor, entries, before, after, said, ok);
        if after != before && after != WithTable(before) {
          AdoptKeepsOnce(
            tree, Within(tree, bound), before.Rows(), floor, entries, WithTable(before), after, said);
        }
      case ConvertLedger(floor, raw) =>
        var entries :| Manifested(entries, raw, tree)
          && ConvertEnds(tree, floor, entries, before, after, said, ok);
        if after != before {
          ConvertKeepsOnce(tree, before);
          AdoptKeepsOnce(tree, tree, map[], floor, entries, Retired(before), after, said);
        }
      case Repair(version) =>
        if after != before && after != WithTable(before) {
          var m :| m in tree && m.version == version && after == Recorded(before, m, Repaired);
          RepairKeepsOnce(tree, m, before);
        }
    }
  }

  // Over any history of any verbs, each ending anywhere, a wrapped file's work
  // is committed whole, once and recorded with its checksum, or not at all.
  lemma {:induction false} HistoryRunsOnce(tree: seq<Migration>, runs: seq<Run>, dbs: seq<Db>)
    requires IsTree(tree) && History(tree, runs, dbs) && AllRanOnce(tree, dbs[0])
    ensures forall db <- dbs :: AllRanOnce(tree, db)
    decreases |runs|
  {
    hide AllRanOnce, RunEnds, IsTree;
    if runs != [] {
      var run := runs[0];
      assert CanEnd(tree, run, dbs[0], dbs[0 + 1]);
      RunKeepsOnce(
        tree, run.verb, dbs[0], dbs[1], run.said, RunEnds(tree, run.verb, dbs[0], dbs[1], run.said, true));
      TailHistory(tree, runs, dbs);
      HistoryRunsOnce(tree, runs[1..], dbs[1..]);
      assert dbs == [dbs[0]] + dbs[1..];
    }
  }

  // ----- apply and the gated files -----

  lemma {:induction false} PrefixTouchesNoOther(start: Db, ms: seq<Migration>, version: nat)
    requires start.ledger.Some? && !InTree(ms, version)
    ensures
      var done := CompletedAll(start, ms);
      && EffectsOf(done.effects, version) == EffectsOf(start.effects, version)
      && (version in done.Rows() <==> version in start.Rows())
  {
    if ms != [] {
      var last, rest := ms[|ms| - 1], ms[..|ms| - 1];
      assert last in ms && forall m <- rest :: m in ms;
      PrefixTouchesNoOther(start, rest, version);
      CompletedRows(start, rest);
      PlayTouchesNoOther(last, |last.statements|, CompletedAll(start, rest).effects, version);
    }
  }

  // However it ends, a run of apply neither executes nor records a gated file.
  lemma {:induction false} ApplyLeavesGatedFiles(
    tree: seq<Migration>, bound: Option<nat>, before: Db, after: Db, ok: bool, gated: Migration)
    requires IsTree(tree) && gated in tree && gated.manual
    requires ApplyEnds(tree, Within(tree, bound), before, after, ok)
    ensures EffectsOf(after.effects, gated.version) == EffectsOf(before.effects, gated.version)
    ensures gated.version in after.Rows() <==> gated.version in before.Rows()
  {
    hide Accepts, Completed, EffectsOf, CompletedAll;
    var start, plan := WithTable(before), ToApply(Within(tree, bound), before.Rows());
    if after != before && after != start {
      var k: nat :| EndsAfter(start, plan, k, after, ok);
      GatedNotPlanned(tree, bound, before.Rows(), gated);
      var done := CompletedAll(start, plan[..k]);
      assert !InTree(plan[..k], gated.version) by {
        assert forall m <- plan[..k] :: m in plan;
      }
      PrefixTouchesNoOther(start, plan[..k], gated.version);
      if after != done && plan[k].mode != Wrapped {
        assert plan[k] in plan;
        var n: nat :| n <= |plan[k].statements| && after.effects == PlayFirst(plan[k], n, done.effects).done;
        PlayTouchesNoOther(plan[k], n, done.effects, gated.version);
      }
    }
  }

  lemma {:induction false} GatedNotPlanned(
    tree: seq<Migration>, bound: Option<nat>, ledger: Ledger, gated: Migration)
    requires IsTree(tree) && gated in tree && gated.manual
    ensures forall m <- ToApply(Within(tree, bound), ledger) :: m.version != gated.version
  {
    forall m | m in ToApply(Within(tree, bound), ledger) ensures m.version != gated.version {
      assert m in tree && !m.manual;
      if m.version == gated.version {
        VersionsApart(tree, m, gated);
      }
    }
  }
}
