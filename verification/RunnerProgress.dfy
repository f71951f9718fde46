// What one run leaves the next: apply takes up where a failed run stopped, a
// ledger adopt wrote is one apply accepts, and no wrapped file runs twice.

module RunnerProgress {
  import opened Chars
  import opened ExecutionMode
  import opened Migrations
  import opened LedgerRules
  import opened Outcomes
  import opened Adoption
  import opened Database
  import opened Transcripts
  import opened Verbs
  import opened RunnerHistories

  // ----- plans -----

  lemma {:induction false} SameMembersSameOrder(a: seq<Migration>, b: seq<Migration>)
    requires Ordered(a) && Ordered(b) && forall m :: m in a <==> m in b
    ensures a == b
  {
    assert a != [] ==> a[0] in b;
    assert b != [] ==> b[0] in a;
    if a != [] {
      OrderedTail(a);
      OrderedTail(b);
      assert a[0] == b[0];
      forall m ensures m in a[1..] <==> m in b[1..] {
        assert m in a <==> m == a[0] || m in a[1..];
        assert m in b <==> m == b[0] || m in b[1..];
      }
      SameMembersSameOrder(a[1..], b[1..]);
    }
  }

  lemma {:induction false} VersionsApart(ms: seq<Migration>, m: Migration, n: Migration)
    requires Ordered(ms) && m in ms && n in ms && m.version == n.version
    ensures m == n
  {
    var i :| 0 <= i < |ms| && ms[i] == m;
    var j :| 0 <= j < |ms| && ms[j] == n;
  }

  lemma {:induction false} OrderedSuffix(ms: seq<Migration>, k: nat)
    requires Ordered(ms) && k <= |ms|
    ensures Ordered(ms[k..]) && Ordered(ms[..k])
    ensures forall m <- ms[..k], n <- ms[k..] :: m.version < n.version
  {
  }

  lemma {:induction false} NotAmongEarlier(ms: seq<Migration>, k: nat, version: nat)
    requires Ordered(ms) && k <= |ms| && exists m <- ms[k..] :: m.version <= version
    ensures !InTree(ms[..k], version)
  {
    OrderedSuffix(ms, k);
    var m :| m in ms[k..] && m.version <= version;
    forall n | n in ms[..k] ensures n.version != version {
      assert n.version < m.version;
    }
  }

  // What is left to apply after `k` files of a plan is the rest of the plan.
  lemma {:induction false} RestOfPlan(tree: seq<Migration>, bound: Option<nat>, ledger: Ledger, k: nat)
    requires IsTree(tree) && k <= |ToApply(Within(tree, bound), ledger)|
    ensures
      var window := Within(tree, bound);
      var plan := ToApply(window, ledger);
      ToApply(window, RecordRows(ledger, plan[..k], Applied)) == plan[k..]
  {
    var window := Within(tree, bound);
    var plan := ToApply(window, ledger);
    var rows := RecordRows(ledger, plan[..k], Applied);
    PlanIsOrdered(tree, bound, ledger);
    PlanIsOrdered(tree, bound, rows);
    RecordedKeys(ledger, plan[..k], Applied);
    OrderedSuffix(plan, k);
    RestMembers(window, ledger, k, rows);
    hide *;
    SameMembersSameOrder(ToApply(window, rows), plan[k..]);
  }

  lemma {:induction false} RestMembers(window: seq<Migration>, ledger: Ledger, k: nat, rows: Ledger)
    requires Ordered(ToApply(window, ledger)) && k <= |ToApply(window, ledger)|
    requires forall v :: v in rows <==> v in ledger || InTree(ToApply(window, ledger)[..k], v)
    ensures forall m :: m in ToApply(window, rows) <==> m in ToApply(window, ledger)[k..]
  {
    var plan := ToApply(window, ledger);
    hide Unrecorded, Ordinary, Ordered;
    assert plan == plan[..k] + plan[k..];
    forall m ensures m in ToApply(window, rows) <==> m in plan[k..] {
      if m in plan[k..] {
        NotAmongEarlier(plan, k, m.version);
      }
      if m in plan[..k] {
        assert InTree(plan[..k], m.version);
      }
    }
  }

  // ----- a run that stopped leaves the next one the rest -----

  ghost predicate CarriesRetired(ms: seq<Migration>) {
    exists m <- ms :: HasRetiredChecksum(m.version, m.checksum)
  }

  lemma {:induction false} InitialIsRecorded(tree: seq<Migration>, bound: Option<nat>, ledger: Ledger)
    requires Accepts(tree, Within(tree, bound), ledger)
    ensures InTree(tree, INITIAL_VERSION) ==> INITIAL_VERSION in ledger
    ensures InTree(tree, INITIAL_VERSION) <==> InTree(Within(tree, bound), INITIAL_VERSION)
  {
    var window := Within(tree, bound);
    if InTree(tree, INITIAL_VERSION) {
      var m :| m in tree && m.version == INITIAL_VERSION;
      assert m in window;
      assert INITIAL_VERSION !in ledger ==> m in Unrecorded(window, ledger);
    }
  }

  lemma {:induction false} NoRetiredRow(ledger: Ledger, some: seq<Migration>)
    requires !HoldsRetired(ledger, some) && InTree(some, INITIAL_VERSION)
    ensures forall v <- ledger :: !HasRetiredChecksum(v, ledger[v].checksum)
  {
  }

  // After a prefix of the plan, a tree with an initial version is taken for
  // retired history exactly when the prefix recorded a retired checksum.
  lemma {:induction false} RetiredAfterPrefix(
    tree: seq<Migration>, some: seq<Migration>, ledger: Ledger, done: seq<Migration>)
    requires !HoldsRetired(ledger, some) && Ordered(done)
    requires InTree(some, INITIAL_VERSION) ==> INITIAL_VERSION in ledger
    requires forall m <- done :: m.version !in ledger
    ensures
      HoldsRetired(RecordRows(ledger, done, Applied), some) <==>
      InTree(some, INITIAL_VERSION) && CarriesRetired(done)
  {
    var rows := RecordRows(ledger, done, Applied);
    RecordedKeys(ledger, done, Applied);
    hide RecordRows, Ordered;
    if HoldsRetired(rows, some) {
      assert INITIAL_VERSION in rows;
      var v :| v in rows && HasRetiredChecksum(v, rows[v].checksum);
      NoRetiredRow(ledger, some);
      var m :| m in done && m.version == v && m.checksum == rows[v].checksum;
    }
    if InTree(some, INITIAL_VERSION) && CarriesRetired(done) {
      var m :| m in done && HasRetiredChecksum(m.version, m.checksum);
      assert InTree(done, m.version) && m.version in rows;
      var n :| n in done && n.version == m.version && n.checksum == rows[m.version].checksum;
      VersionsApart(done, m, n);
      assert HasRetiredChecksum(m.version, rows[m.version].checksum);
    }
  }

  // Apply is resumable: after any prefix of an accepted plan, the same run is
  // accepted again and has exactly the rest to do, unless the prefix recorded a
  // retired file's checksum in a tree with an initial version. Then every later
  // run is refused.
  lemma {:induction false} PrefixIsAccepted(tree: seq<Migration>, bound: Option<nat>, ledger: Ledger, k: nat)
    requires IsTree(tree) && Accepts(tree, Within(tree, bound), ledger)
    requires k <= |ToApply(Within(tree, bound), ledger)|
    ensures
      var plan := ToApply(Within(tree, bound), ledger);
      Accepts(tree, Within(tree, bound), RecordRows(ledger, plan[..k], Applied)) <==>
      !(InTree(tree, INITIAL_VERSION) && CarriesRetired(plan[..k]))
  {
    hide *;
    var window := Within(tree, bound);
    var plan := ToApply(window, ledger);
    var done := plan[..k];
    var rows := RecordRows(ledger, done, Applied);
    AcceptedParts(tree, window, ledger);
    InitialIsRecorded(tree, bound, ledger);
    PlanIsOrdered(tree, bound, ledger);
    OrderedSuffix(plan, k);
    RecordedKeys(ledger, done, Applied);
    RestOfPlan(tree, bound, ledger, k);
    PlanIsUnrecorded(window, ledger);
    assert forall m <- done :: m in plan;
    RetiredAfterPrefix(tree, tree, ledger, done);
    RetiredAfterPrefix(tree, window, ledger, done);
    RowsStillFit(window, ledger, done, rows);
    RestAboveHead(plan, k, ledger, rows);
    InitialStaysRecorded(window, ledger, rows);
    AcceptedFromParts(tree, window, rows);
  }

  lemma {:induction false} AcceptedParts(tree: seq<Migration>, window: seq<Migration>, ledger: Ledger)
    requires Accepts(tree, window, ledger)
    ensures !HoldsRetired(ledger, tree) && !HoldsRetired(ledger, window)
    ensures forall v <- ledger :: Fits(window, v, ledger[v])
    ensures forall m <- Unrecorded(window, ledger) :: m.version != INITIAL_VERSION
    ensures forall m <- ToApply(window, ledger) :: BelowHead(ledger, m.version) ==> m.reapplySafe
  {
    hide HoldsRetired, Fits;
  }

  lemma {:induction false} AcceptedFromParts(tree: seq<Migration>, window: seq<Migration>, rows: Ledger)
    requires forall v <- rows :: Fits(window, v, rows[v])
    requires forall m <- Unrecorded(window, rows) :: m.version != INITIAL_VERSION
    requires forall m <- ToApply(window, rows) :: BelowHead(rows, m.version) ==> m.reapplySafe
    ensures Accepts(tree, window, rows) <==> !HoldsRetired(rows, tree) && !HoldsRetired(rows, window)
  {
    hide HoldsRetired, Fits;
  }

  lemma {:induction false} InitialStaysRecorded(window: seq<Migration>, ledger: Ledger, rows: Ledger)
    requires forall m <- Unrecorded(window, ledger) :: m.version != INITIAL_VERSION
    requires forall v <- ledger :: v in rows
    ensures forall m <- Unrecorded(window, rows) :: m.version != INITIAL_VERSION
  {
    forall m | m in Unrecorded(window, rows) ensures m.version != INITIAL_VERSION {
      assert m in Unrecorded(window, ledger);
    }
  }

  lemma {:induction false} PlanIsUnrecorded(window: seq<Migration>, ledger: Ledger)
    ensures forall m <- ToApply(window, ledger) :: m in window && m.version !in ledger
  {
  }

  lemma {:induction false} RowsStillFit(
    window: seq<Migration>, ledger: Ledger, done: seq<Migration>, rows: Ledger)
    requires forall v <- ledger :: Fits(window, v, ledger[v])
    requires forall m <- done :: m in window
    requires forall v <- rows :: (v in ledger && rows[v] == ledger[v]) || Fits(done, v, rows[v])
    ensures forall v <- rows :: Fits(window, v, rows[v])
  {
    forall v | v in rows ensures Fits(window, v, rows[v]) {
      if !(v in ledger && rows[v] == ledger[v]) {
        var m :| m in done && m.version == v && m.checksum == rows[v].checksum;
        assert m in window;
      }
    }
  }

  lemma {:induction false} RestAboveHead(plan: seq<Migration>, k: nat, ledger: Ledger, rows: Ledger)
    requires k <= |plan| && Ordered(plan)
    requires forall v :: v in rows ==> v in ledger || InTree(plan[..k], v)
    requires forall m <- plan :: BelowHead(ledger, m.version) ==> m.reapplySafe
    ensures forall m <- plan[k..] :: BelowHead(rows, m.version) ==> m.reapplySafe
  {
    forall m | m in plan[k..] && BelowHead(rows, m.version) ensures m.reapplySafe {
      var v :| v in rows && m.version < v;
      NotAmongEarlier(plan, k, v);
      assert BelowHead(ledger, m.version) && m in plan;
    }
  }

  // ----- any number of failed runs, then one that succeeds -----

  ghost predicate AllWrapped(ms: seq<Migration>) {
    forall m <- ms :: m.mode == Wrapped
  }

  // A failed run's progress: a prefix of its plan recorded, in version order,
  // and, when the plan is all wrapped, nothing but that prefix.
  lemma {:induction false} FailedRunIsAPrefix(
    tree: seq<Migration>, bound: Option<nat>, before: Db, after: Db, ok: bool) returns (k: nat)
    requires ApplyEnds(tree, Within(tree, bound), before, after, ok)
    ensures
      var plan := ToApply(Within(tree, bound), before.Rows());
      && k <= |plan| && (ok ==> k == |plan|)
      && after.Rows() == RecordRows(before.Rows(), plan[..k], Applied)
      && (AllWrapped(plan) ==> WithTable(after) == CompletedAll(WithTable(before), plan[..k]))
  {
    var start, plan := WithTable(before), ToApply(Within(tree, bound), before.Rows());
    hide Accepts, Ordinary, Unrecorded, Within, Completed;
    if !ok && (after == before || after == start) {
      k := 0;
      assert plan[..0] == [];
    } else {
      k :| EndsAfter(start, plan, k, after, ok);
      CompletedRows(start, plan[..k]);
      if AllWrapped(plan) && after != CompletedAll(start, plan[..k]) {
        assert plan[k] in plan;
      }
    }
  }

  lemma {:induction false} CompletedAllAppend(db: Db, a: seq<Migration>, b: seq<Migration>)
    ensures CompletedAll(CompletedAll(db, a), b) == CompletedAll(db, a + b)
  {
    hide Completed;
    if b == [] {
      assert a + b == a;
    } else {
      CompletedAllAppend(db, a, b[..|b| - 1]);
      assert (a + b)[..|a + b| - 1] == a + b[..|b| - 1];
    }
  }

  // The states between runs of apply, all but the last of which failed.
  ghost predicate Retries(tree: seq<Migration>, bound: Option<nat>, dbs: seq<Db>) {
    && |dbs| >= 2
    && (forall i :: 0 <= i < |dbs| - 2 ==> ApplyEnds(tree, Within(tree, bound), dbs[i], dbs[i + 1], false))
    && ApplyEnds(tree, Within(tree, bound), dbs[|dbs| - 2], dbs[|dbs| - 1], true)
  }

  // However often apply failed before it succeeded, the ledger is the one an
  // uninterrupted run would have written; and when the plan is all wrapped, so
  // is every statement's effect.
  lemma {:induction false} RetriesAreOneRun(tree: seq<Migration>, bound: Option<nat>, dbs: seq<Db>)
    requires IsTree(tree) && Retries(tree, bound, dbs)
    requires |dbs| > 0 && Accepts(tree, Within(tree, bound), dbs[0].Rows())
    requires !CarriesRetired(ToApply(Within(tree, bound), dbs[0].Rows()))
    ensures
      var plan := ToApply(Within(tree, bound), dbs[0].Rows());
      && dbs[|dbs| - 1].Rows() == RecordRows(dbs[0].Rows(), plan, Applied)
      && (AllWrapped(plan) ==>
            WithTable(dbs[|dbs| - 1]) == CompletedAll(WithTable(dbs[0]), plan))
    decreases |dbs|
  {
    hide *;
    var window := Within(tree, bound);
    var rows, plan := dbs[0].Rows(), ToApply(window, dbs[0].Rows());
    RetriesTail(tree, bound, dbs);
    var k := FailedRunIsAPrefix(tree, bound, dbs[0], dbs[1], |dbs| == 2);
    if |dbs| == 2 {
      assert plan[..k] == plan;
    } else {
      PartCarriesNone(plan, k);
      PrefixIsAccepted(tree, bound, rows, k);
      RestOfPlan(tree, bound, rows, k);
      WithTableRows(dbs[1]);
      RetriesAreOneRun(tree, bound, dbs[1..]);
      assert plan == plan[..k] + plan[k..];
      RecordRowsAppend(rows, plan[..k], plan[k..], Applied);
      CompletedAllAppend(WithTable(dbs[0]), plan[..k], plan[k..]);
    }
  }

  lemma {:induction false} PartCarriesNone(ms: seq<Migration>, k: nat)
    requires k <= |ms| && !CarriesRetired(ms)
    ensures !CarriesRetired(ms[..k]) && !CarriesRetired(ms[k..])
    ensures AllWrapped(ms) ==> AllWrapped(ms[..k]) && AllWrapped(ms[k..])
  {
  }

  lemma {:induction false} WithTableRows(db: Db)
    ensures WithTable(db).Rows() == db.Rows() && WithTable(db).ledger.Some?
  {
  }

  lemma {:induction false} RetriesTail(tree: seq<Migration>, bound: Option<nat>, dbs: seq<Db>)
    requires Retries(tree, bound, dbs)
    ensures |dbs| >= 2 && ApplyEnds(tree, Within(tree, bound), dbs[0], dbs[1], |dbs| == 2)
    ensures |dbs| > 2 ==> Retries(tree, bound, dbs[1..]) && dbs[1..][|dbs| - 2] == dbs[|dbs| - 1]
  {
    hide ApplyEnds;
    assert dbs[1] == dbs[0 + 1];
    var rest := dbs[1..];
    if |dbs| > 2 {
      assert rest[|rest| - 1] == dbs[|dbs| - 1] && rest[|rest| - 2] == dbs[|dbs| - 2];
      forall i | 0 <= i < |rest| - 2
        ensures ApplyEnds(tree, Within(tree, bound), rest[i], rest[i + 1], false)
      {
        assert rest[i] == dbs[i + 1] && rest[i + 1] == dbs[i + 1 + 1];
      }
    }
  }

  // ----- adopt hands apply a ledger it accepts -----

  lemma {:induction false} AdoptedIsAccepted(
    tree: seq<Migration>, bound: Option<nat>, ledger: Ledger, floor: int, entries: map<nat, Evidence>,
    start: Db, after: Db, said: seq<Event>)
    requires IsTree(tree) && NoGap(tree, ledger) && start.ledger == Some(ledger) && floor >= 0
    requires !HoldsRetired(ledger, tree) && !CarriesRetired(tree)
    requires Adopts(Within(tree, bound), ledger, floor, entries, start, after, said)
    ensures Accepts(tree, tree, after.Rows())
    ensures
      forall m <- ToApply(tree, after.Rows()), v <- after.Rows() ::
        v !in ledger && !m.reapplySafe ==> v < m.version
  {
    var window := Within(tree, bound);
    var candidates := Unrecorded(window, ledger);
    var results :|
      && Coherent(candidates, floor, entries, results)
      && Answered(candidates, entries, results, said)
      && after == AdoptAll(start, Proven(candidates, results));
    assert forall v <- ledger :: Fits(window, v, ledger[v]);
    RowsOfAdoption(tree, bound, ledger, floor, entries, results, start);
    var rows := after.Rows();
    hide *;
    AdoptionOpensNoGap(tree, window, bound, ledger, floor, entries, results);
    NoGapPending(tree, rows);
    PendingAboveAdopted(tree, bound, ledger, floor, entries, results, rows);
    NotRetired(tree, rows);
    InitialNotPending(tree, rows);
    AcceptedFromParts(tree, tree, rows);
  }

  lemma {:induction false} CoherentResults(
    candidates: seq<Migration>, floor: int, entries: map<nat, Evidence>, results: Results)
    requires Coherent(candidates, floor, entries, results)
    ensures forall m <- candidates :: m.version in results && (m.version <= floor ==> results[m.version])
  {
  }

  lemma {:induction false} RowsOfAdoption(
    tree: seq<Migration>, bound: Option<nat>, ledger: Ledger, floor: int,
    entries: map<nat, Evidence>, results: Results, start: Db)
    requires start.ledger == Some(ledger) && floor >= 0
    requires Coherent(Unrecorded(Within(tree, bound), ledger), floor, entries, results)
    requires forall v <- ledger :: Fits(Within(tree, bound), v, ledger[v])
    ensures
      var proven := Proven(Unrecorded(Within(tree, bound), ledger), results);
      var rows := AdoptAll(start, proven).Rows();
      && rows == RecordRows(ledger, proven, Adopted)
      && (forall v <- rows :: Fits(tree, v, rows[v]))
      && (InTree(tree, INITIAL_VERSION) ==> INITIAL_VERSION in rows)
  {
    var window := Within(tree, bound);
    var candidates := Unrecorded(window, ledger);
    var proven := Proven(candidates, results);
    var rows := RecordRows(ledger, proven, Adopted);
    CoherentResults(candidates, floor, entries, results);
    hide *;
    AdoptedRows(start, proven);
    RecordedKeys(ledger, proven, Adopted);
    FitsAnywhere(tree, window, ledger);
    RowsStillFit(tree, ledger, proven, rows);
    if InTree(tree, INITIAL_VERSION) {
      InitialInWindow(tree, bound);
      InitialIsAdopted(tree, window, ledger, floor, results, candidates, proven, rows);
    }
  }

  lemma {:induction false} FitsAnywhere(tree: seq<Migration>, window: seq<Migration>, ledger: Ledger)
    requires forall m <- window :: m in tree
    requires forall v <- ledger :: Fits(window, v, ledger[v])
    ensures forall v <- ledger :: Fits(tree, v, ledger[v])
  {
    forall v | v in ledger ensures Fits(tree, v, ledger[v]) {
      var m :| m in window && m.version == v && m.checksum == ledger[v].checksum;
      assert m in tree;
    }
  }

  lemma {:induction false} InitialInWindow(tree: seq<Migration>, bound: Option<nat>)
    ensures forall m <- tree :: m.version == INITIAL_VERSION ==> m in Within(tree, bound)
  {
  }

  lemma {:induction false} NoGapPending(tree: seq<Migration>, rows: Ledger)
    requires NoGap(tree, rows)
    ensures forall m <- ToApply(tree, rows) :: BelowHead(rows, m.version) ==> m.reapplySafe
  {
  }

  lemma {:induction false} InitialNotPending(tree: seq<Migration>, rows: Ledger)
    requires InTree(tree, INITIAL_VERSION) ==> INITIAL_VERSION in rows
    ensures forall m <- Unrecorded(tree, rows) :: m.version != INITIAL_VERSION
  {
  }

  // What coherent evidence left out is above everything it let in.
  lemma {:induction false} PendingAboveAdopted(
    tree: seq<Migration>, bound: Option<nat>, ledger: Ledger, floor: int,
    entries: map<nat, Evidence>, results: Results, rows: Ledger)
    requires IsTree(tree)
    requires Coherent(Unrecorded(Within(tree, bound), ledger), floor, entries, results)
    requires
      rows == RecordRows(ledger, Proven(Unrecorded(Within(tree, bound), ledger), results), Adopted)
    ensures
      forall m <- ToApply(tree, rows), v <- rows :: v !in ledger && !m.reapplySafe ==> v < m.version
  {
    var candidates := Unrecorded(Within(tree, bound), ledger);
    var proven := Proven(candidates, results);
    RecordedKeys(ledger, proven, Adopted);
    hide RecordRows, Unrecorded, Within, Ordinary, Coherent, Ordered;
    forall m, v | m in ToApply(tree, rows) && v in rows && v !in ledger && !m.reapplySafe
      ensures v < m.version
    {
      assert m in Unrecorded(tree, rows) && m.version != v;
      if m.version < v {
        LeftOutIsAbove(tree, bound, ledger, floor, entries, results, m, v);
      }
    }
  }

  lemma {:induction false} LeftOutIsAbove(
    tree: seq<Migration>, bound: Option<nat>, ledger: Ledger, floor: int,
    entries: map<nat, Evidence>, results: Results, m: Migration, v: nat)
    requires IsTree(tree)
    requires Coherent(Unrecorded(Within(tree, bound), ledger), floor, entries, results)
    requires m in tree && m.version !in ledger && !m.reapplySafe && m.version < v
    requires InTree(Proven(Unrecorded(Within(tree, bound), ledger), results), v)
    ensures InTree(Proven(Unrecorded(Within(tree, bound), ledger), results), m.version)
  {
    var candidates := Unrecorded(Within(tree, bound), ledger);
    var proven := Proven(candidates, results);
    hide Unrecorded, Within, Proven;
    var n :| n in proven && n.version == v;
    assert m in candidates;
    assert m in proven;
  }

  lemma {:induction false} InitialIsAdopted(
    tree: seq<Migration>, window: seq<Migration>, ledger: Ledger, floor: int, results: Results,
    candidates: seq<Migration>, proven: seq<Migration>, rows: Ledger)
    requires InTree(tree, INITIAL_VERSION) && floor >= 0
    requires forall m <- tree :: m.version == INITIAL_VERSION ==> m in window
    requires forall m <- window :: m.version !in ledger ==> m in candidates
    requires forall m <- candidates :: m.version in results && (m.version <= floor ==> results[m.version])
    requires forall m <- candidates :: results[m.version] ==> m in proven
    requires forall v :: v in ledger || InTree(proven, v) ==> v in rows
    ensures INITIAL_VERSION in rows
  {
    var m :| m in tree && m.version == INITIAL_VERSION;
    if INITIAL_VERSION !in ledger {
      assert m in proven;
      assert InTree(proven, INITIAL_VERSION);
    }
  }

  lemma {:induction false} NotRetired(tree: seq<Migration>, rows: Ledger)
    requires !CarriesRetired(tree) && forall v <- rows :: Fits(tree, v, rows[v])
    requires InTree(tree, INITIAL_VERSION) ==> INITIAL_VERSION in rows
    ensures !HoldsRetired(rows, tree)
  {
    forall v | v in rows ensures !HasRetiredChecksum(v, rows[v].checksum) {
      var m :| m in tree && m.version == v && m.checksum == rows[v].checksum;
    }
  }

  // After a successful adopt or conversion, apply is refused for nothing, and
  // what it may still run out of order is only what is safe to reapply.
  lemma {:induction false} AdoptHandsApplyItsLedger(
    tree: seq<Migration>, verb: Verb, before: Db, after: Db, said: seq<Event>)
    requires IsTree(tree) && !CarriesRetired(tree)
    requires verb.Adopt? || verb.ConvertLedger?
    requires verb.floor >= 0 && RunEnds(tree, verb, before, after, said, true)
    requires verb.Adopt? ==> NoGap(tree, before.Rows())
    ensures Accepts(tree, tree, after.Rows())
    ensures
      forall m <- ToApply(tree, after.Rows()), v <- after.Rows() ::
        (verb.Adopt? ==> v !in before.Rows()) && !m.reapplySafe ==> v < m.version
  {
    hide Accepts, NoGap, Adopts, HoldsRetired, OnlyRetired, IsTree, CarriesRetired, ToApply, Readable, Manifested;
    if verb.Adopt? {
      var entries :| Manifested(entries, verb.raw, Within(tree, verb.bound))
        && AdoptEnds(tree, Within(tree, verb.bound), verb.floor, entries, before, after, said, true);
      AdoptedIsAccepted(
        tree, verb.bound, before.Rows(), verb.floor, entries, WithTable(before), after, said);
    } else {
      var entries :| Manifested(entries, verb.raw, tree)
        && ConvertEnds(tree, verb.floor, entries, before, after, said, true);
      NothingIsNoGap(tree);
      WithinAll(tree);
      NothingRetired(tree);
      AdoptedIsAccepted(tree, None, map[], verb.floor, entries, Retired(before), after, said);
    }
  }

  lemma {:induction false} NothingRetired(tree: seq<Migration>)
    ensures !HoldsRetired(map[], tree)
  {
  }

  // A conversion keeps every retired row under the retired table's name and
  // every statement's effect, or changes nothing.
  lemma {:induction false} ConversionKeepsTheRetired(
    tree: seq<Migration>, floor: int, entries: map<nat, Evidence>, before: Db, after: Db,
    said: seq<Event>, ok: bool)
    requires ConvertEnds(tree, floor, entries, before, after, said, ok)
    ensures after == before || (after.legacy == before.ledger && before.ledger.Some?)
    ensures after.effects == before.effects && (ok ==> after.legacy == before.ledger)
  {
    hide Intact, OnlyRetired, AdoptAll, Answered;
    if after != before || ok {
      var results :|
        && Coherent(Unrecorded(tree, map[]), floor, entries, results)
        && Answered(Unrecorded(tree, map[]), entries, results, said)
        && after == AdoptAll(Retired(before), Proven(Unrecorded(tree, map[]), results));
      AdoptedRows(Retired(before), Proven(Unrecorded(tree, map[]), results));
    }
  }

  // A ledger of the retired chain alone is one that conversion takes and every other
  // verb refuses, on a tree that holds the initial version and the three files that
  // replaced the chain.
  lemma {:induction false} RetiredChainIsRefused(tree: seq<Migration>, ledger: Ledger)
    requires InTree(tree, 0) && ledger != map[]
    requires forall name <- ["000_initial.sql", "001_catalog_text.sql", "002_drop_archive_snapshots.sql"] ::
      exists m <- tree :: m.name == name
    requires forall v <- ledger ::
      1 <= v <= 149 && forall m <- tree :: m.checksum != ledger[v].checksum && m.name != ledger[v].checksum
    ensures OnlyRetired(ledger, tree) && HoldsRetired(ledger, tree)
    ensures forall window :: !Accepts(tree, window, ledger)
  {
    var names := ["000_initial.sql", "001_catalog_text.sql", "002_drop_archive_snapshots.sql"];
    assert names[0] in names && names[1] in names && names[2] in names;
    assert forall name <- REPLACEMENT_CORPUS :: name in names;
    var v :| v in ledger;
    assert forall m <- tree :: m.checksum != ledger[v].checksum;
  }
}
