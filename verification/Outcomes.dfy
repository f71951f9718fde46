// How a verb's run can end, as a relation between the committed state at the
// moment it took the lock and the committed state it left.

module Outcomes {
  import opened Chars
  import opened ExecutionMode
  import opened Migrations
  import opened Database
  import opened LedgerRules

  datatype Refusal =
    | PooledHost | LockStillHeld | LockNotRead
    | RetiredHistory | NotIntact | InitialUnrecorded | FileBelowHead
    | NoSuchFile | NotManual | AlreadyRecorded | OrdinaryPendingBelow
    | OpenBlock | PostconditionFailed | DatabaseError | LockNotAvailable
    | ManifestRefused | NotAdopted | NotConfirmed | NotConvertible | NoReason | NoSuchRow

  // What is left when a file did not succeed: none of a wrapped file, and of any
  // other the work its own statements had committed, with no row.
  ghost predicate PartOf(before: Db, m: Migration, after: Db) {
    && after == before.(effects := after.effects)
    && if m.mode == Wrapped then after == before
       else exists n: nat :: n <= |m.statements| && after.effects == PlayFirst(m, n, before.effects).done
  }

  // How one file can end. A lost connection may hide a commit that arrived.
  ghost predicate FileEnds(before: Db, m: Migration, failure: Option<Refusal>, after: Db, tx: Tx) {
    if failure.None? then
      && after == Completed(before, m) && tx == Idle && m.version !in before.Rows()
      && PlayFile(m, before.effects).open.None?
    else
      || PartOf(before, m, after)
      || (&& tx == Lost && after == Completed(before, m) && m.version !in before.Rows()
          && PlayFile(m, before.effects).open.None?)
  }

  // ----- a run of apply -----

  function WithTable(db: Db): Db {
    db.(ledger := Some(db.Rows()))
  }

  function CompletedAll(db: Db, ms: seq<Migration>): Db {
    if ms == [] then db else Completed(CompletedAll(db, ms[..|ms| - 1]), ms[|ms| - 1])
  }

  lemma {:induction false} CompletedNext(db: Db, ms: seq<Migration>, k: nat)
    requires k < |ms|
    ensures CompletedAll(db, ms[..k + 1]) == Completed(CompletedAll(db, ms[..k]), ms[k])
  {
    assert ms[..k + 1][..k] == ms[..k];
  }

  // The run ended after `k` files of its plan, and maybe inside the next one.
  ghost predicate EndsAfter(start: Db, plan: seq<Migration>, k: nat, after: Db, ok: bool) {
    && k <= |plan|
    && var done := CompletedAll(start, plan[..k]);
       if ok then k == |plan| && after == done
       else after == done || (k < |plan| && PartOf(done, plan[k], after))
  }

  // The run ended somewhere along its plan.
  ghost predicate EndsAlong(start: Db, plan: seq<Migration>, after: Db, ok: bool) {
    exists k: nat :: EndsAfter(start, plan, k, after, ok)
  }

  ghost predicate ApplyEnds(
    corpus: seq<Migration>, window: seq<Migration>, before: Db, after: Db, ok: bool)
  {
    || (!ok && (after == before || after == WithTable(before)))
    || (&& Accepts(corpus, window, before.Rows())
        && EndsAlong(WithTable(before), ToApply(window, before.Rows()), after, ok))
  }

  // A run of the operator's door for one gated file.
  ghost predicate ManualAccepts(corpus: seq<Migration>, m: Migration, ledger: Ledger) {
    && m in corpus && m.manual
    && Intact(ledger, corpus)
    && m.version !in ledger
    && (forall other <- corpus :: other.version < m.version && !other.manual ==> other.version in ledger)
  }

  ghost predicate ManualRan(m: Migration, before: Db, after: Db, ok: bool) {
    || after == Completed(WithTable(before), m)
    || (!ok && PartOf(WithTable(before), m, after))
  }

  ghost predicate ManualEnds(corpus: seq<Migration>, version: nat, before: Db, after: Db, ok: bool) {
    || (!ok && (after == before || after == WithTable(before)))
    || exists m <- corpus ::
         m.version == version && ManualAccepts(corpus, m, before.Rows()) && ManualRan(m, before, after, ok)
  }
}
