// What each refusal of a writing verb rests on: a condition of the ledger as it
// stood when the lock was taken, or something in the transcript.

module Refusals {
  import opened Chars
  import opened ExecutionMode
  import opened Migrations
  import opened Database
  import opened Transcripts
  import opened LedgerRules
  import opened Outcomes
  import opened Adoption

  // ----- one file -----

  // The file's own statements leave a block open.
  ghost predicate LeavesOpen(m: Migration) {
    PlayFile(m, []).open.Some?
  }

  ghost predicate FileFails(m: Migration, refusal: Refusal, log: seq<Event>, from: nat) {
    match refusal
    case PostconditionFailed => exists probe <- m.postconditions :: AnsweredNot(log, from, probe)
    case OpenBlock => m.mode != Wrapped && LeavesOpen(m)
    case DatabaseError => SomeFailed(log, from)
    case LockNotAvailable => SomeTimedOut(log, from)
    case _ => false
  }

  // Whether a block is left open does not depend on the work already committed.
  lemma {:induction false} OpenAnyway(m: Migration, n: nat, effects: seq<Effect>, others: seq<Effect>)
    requires n <= |m.statements|
    ensures PlayFirst(m, n, effects).open.Some? <==> PlayFirst(m, n, others).open.Some?
    decreases n
  {
    if n > 0 {
      OpenAnyway(m, n - 1, effects, others);
    }
  }

  // ----- the lock -----

  // Nobody let go of the lock while it was asked for, or a try could not be read.
  ghost predicate LockFails(refusal: Refusal, log: seq<Event>, from: nat) {
    match refusal
    case LockStillHeld =>
      && (exists i :: from <= i < |log| && log[i] == Tried(Held))
      && forall i :: from <= i < |log| && log[i].Tried? ==> log[i].lock == Held
    case LockNotRead => exists i :: from <= i < |log| && log[i] == Tried(LockFailed)
    case _ => false
  }

  // ----- the ledger -----

  ghost predicate LedgerFails(
    corpus: seq<Migration>, window: seq<Migration>, refusal: Refusal, rows: Ledger, log: seq<Event>, from: nat)
  {
    match refusal
    case RetiredHistory => HoldsRetired(rows, corpus)
    case NotIntact => !Intact(rows, window)
    case DatabaseError => SomeFailed(log, from)
    case LockNotAvailable => SomeTimedOut(log, from)
    case _ => false
  }

  // ----- the verbs -----

  ghost predicate ApplyFails(
    corpus: seq<Migration>, window: seq<Migration>, refusal: Refusal, rows: Ledger, log: seq<Event>, from: nat)
  {
    || LedgerFails(corpus, window, refusal, rows, log, from)
    || (refusal == InitialUnrecorded && exists m <- Unrecorded(window, rows) :: m.version == INITIAL_VERSION)
    || (refusal == FileBelowHead
        && exists m <- ToApply(window, rows) :: BelowHead(rows, m.version) && !m.reapplySafe)
    || exists m <- ToApply(window, rows) :: FileFails(m, refusal, log, from)
  }

  ghost predicate ManualFails(
    corpus: seq<Migration>, m: Migration, refusal: Refusal, rows: Ledger, log: seq<Event>, from: nat)
  {
    || LedgerFails(corpus, corpus, refusal, rows, log, from)
    || (refusal == AlreadyRecorded && m.version in rows)
    || (refusal == OrdinaryPendingBelow
        && exists other <- corpus ::
             other.version < m.version && !other.manual && other.version !in rows)
    || FileFails(m, refusal, log, from)
  }

  ghost predicate AdoptFails(
    corpus: seq<Migration>, window: seq<Migration>, floor: int, entries: map<nat, Evidence>,
    refusal: Refusal, rows: Ledger, log: seq<Event>, from: nat)
    requires from <= |log|
  {
    || LedgerFails(corpus, window, refusal, rows, log, from)
    || (refusal == NotAdopted
        && exists fault :: PlanDeserves(fault, window, Some(rows), floor, entries, log, from))
  }

  // What a conversion asks first: the owner's session, no earlier retired table, a
  // table of the known layout, and nothing in it but retired rows.
  ghost predicate CheckFails(
    corpus: seq<Migration>, refusal: Refusal, before: Db, log: seq<Event>, from: nat)
  {
    match refusal
    case NotConvertible =>
      || before.legacy.Some? || before.ledger.None? || !OnlyRetired(before.ledger.value, corpus)
      || exists i :: from <= i < |log| && log[i] in {Queried(Owner, NotTrue), Queried(Layout, NotTrue)}
    case DatabaseError => SomeFailed(log, from)
    case LockNotAvailable => SomeTimedOut(log, from)
    case _ => false
  }

  ghost predicate ConvertFails(
    corpus: seq<Migration>, floor: int, entries: map<nat, Evidence>,
    refusal: Refusal, before: Db, log: seq<Event>, from: nat)
    requires from <= |log|
  {
    || CheckFails(corpus, refusal, before, log, from)
    || (refusal == NotAdopted
        && exists fault :: PlanDeserves(fault, corpus, Some(map[]), floor, entries, log, from))
  }

  ghost predicate RepairFails(
    corpus: seq<Migration>, version: nat, refusal: Refusal, rows: Ledger, log: seq<Event>, from: nat)
  {
    match refusal
    case RetiredHistory => HoldsRetired(rows, corpus)
    case NoSuchRow => version !in rows
    case DatabaseError => SomeFailed(log, from)
    case LockNotAvailable => SomeTimedOut(log, from)
    case _ => false
  }

  // ----- a longer transcript -----

  lemma {:induction false} FileStillFails(
    m: Migration, refusal: Refusal, log: seq<Event>, later: nat, more: seq<Event>, from: nat)
    requires from <= later && log <= more && FileFails(m, refusal, log, later)
    ensures FileFails(m, refusal, more, from)
  {
    SomeStillFailed(log, later, more, from);
    hide LeavesOpen, SomeFailed, SomeTimedOut, AnsweredNot;
  }

  lemma {:induction false} LedgerStillFails(
    corpus: seq<Migration>, window: seq<Migration>, refusal: Refusal, rows: Ledger,
    log: seq<Event>, later: nat, more: seq<Event>, from: nat)
    requires from <= later && log <= more && LedgerFails(corpus, window, refusal, rows, log, later)
    ensures LedgerFails(corpus, window, refusal, rows, more, from)
  {
    SomeStillFailed(log, later, more, from);
    hide SomeFailed, SomeTimedOut, HoldsRetired, Intact;
  }

  lemma {:induction false} ApplyStillFails(
    corpus: seq<Migration>, window: seq<Migration>, refusal: Refusal, rows: Ledger,
    log: seq<Event>, later: nat, more: seq<Event>, from: nat)
    requires from <= later && log <= more && ApplyFails(corpus, window, refusal, rows, log, later)
    ensures ApplyFails(corpus, window, refusal, rows, more, from)
  {
    hide LedgerFails, FileFails, ToApply, Unrecorded, BelowHead;
    if LedgerFails(corpus, window, refusal, rows, log, later) {
      LedgerStillFails(corpus, window, refusal, rows, log, later, more, from);
    } else if exists m <- ToApply(window, rows) :: FileFails(m, refusal, log, later) {
      var m :| m in ToApply(window, rows) && FileFails(m, refusal, log, later);
      FileStillFails(m, refusal, log, later, more, from);
    }
  }

  lemma {:induction false} ManualStillFails(
    corpus: seq<Migration>, m: Migration, refusal: Refusal, rows: Ledger,
    log: seq<Event>, later: nat, more: seq<Event>, from: nat)
    requires from <= later && log <= more && ManualFails(corpus, m, refusal, rows, log, later)
    ensures ManualFails(corpus, m, refusal, rows, more, from)
  {
    hide LedgerFails, FileFails;
    if LedgerFails(corpus, corpus, refusal, rows, log, later) {
      LedgerStillFails(corpus, corpus, refusal, rows, log, later, more, from);
    } else if FileFails(m, refusal, log, later) {
      FileStillFails(m, refusal, log, later, more, from);
    }
  }

  lemma {:induction false} AdoptStillFails(
    corpus: seq<Migration>, window: seq<Migration>, floor: int, entries: map<nat, Evidence>,
    refusal: Refusal, rows: Ledger, log: seq<Event>, later: nat, more: seq<Event>, from: nat)
    requires from <= later <= |log| && log <= more
    requires AdoptFails(corpus, window, floor, entries, refusal, rows, log, later)
    ensures AdoptFails(corpus, window, floor, entries, refusal, rows, more, from)
  {
    hide LedgerFails, PlanDeserves;
    if LedgerFails(corpus, window, refusal, rows, log, later) {
      LedgerStillFails(corpus, window, refusal, rows, log, later, more, from);
    } else {
      var fault :| PlanDeserves(fault, window, Some(rows), floor, entries, log, later);
      PlanStillDeserves(fault, window, Some(rows), floor, entries, log, later, more, from);
    }
  }

  lemma {:induction false} CheckStillFails(
    corpus: seq<Migration>, refusal: Refusal, before: Db, log: seq<Event>, later: nat, more: seq<Event>, from: nat)
    requires from <= later && log <= more && CheckFails(corpus, refusal, before, log, later)
    ensures CheckFails(corpus, refusal, before, more, from)
  {
    SomeStillFailed(log, later, more, from);
    assert forall i :: 0 <= i < |log| ==> more[i] == log[i];
    hide SomeFailed, SomeTimedOut, OnlyRetired;
  }

  lemma {:induction false} ConvertStillFails(
    corpus: seq<Migration>, floor: int, entries: map<nat, Evidence>,
    refusal: Refusal, before: Db, log: seq<Event>, later: nat, more: seq<Event>, from: nat)
    requires from <= later <= |log| && log <= more
    requires ConvertFails(corpus, floor, entries, refusal, before, log, later)
    ensures ConvertFails(corpus, floor, entries, refusal, before, more, from)
  {
    hide PlanDeserves, CheckFails;
    if CheckFails(corpus, refusal, before, log, later) {
      CheckStillFails(corpus, refusal, before, log, later, more, from);
    } else {
      var fault :| PlanDeserves(fault, corpus, Some(map[]), floor, entries, log, later);
      PlanStillDeserves(fault, corpus, Some(map[]), floor, entries, log, later, more, from);
    }
  }

  lemma {:induction false} RepairStillFails(
    corpus: seq<Migration>, version: nat, refusal: Refusal, rows: Ledger,
    log: seq<Event>, later: nat, more: seq<Event>, from: nat)
    requires from <= later && log <= more && RepairFails(corpus, version, refusal, rows, log, later)
    ensures RepairFails(corpus, version, refusal, rows, more, from)
  {
    SomeStillFailed(log, later, more, from);
    hide SomeFailed, SomeTimedOut, HoldsRetired;
  }

  // ----- no refusal without a cause -----

  ghost predicate AllCameBack(log: seq<Event>, from: nat) {
    forall i :: from <= i < |log| ==> !Failed(log[i])
  }

  lemma {:induction false} NothingFailed(log: seq<Event>, from: nat)
    requires AllCameBack(log, from)
    ensures !SomeFailed(log, from) && !SomeTimedOut(log, from)
  {
  }

  // On a ledger apply accepts, with every statement, question and read answered,
  // every postcondition true and no file leaving its block open, there is nothing
  // apply could refuse or fail with: it succeeds.
  lemma {:induction false} NothingToRefuse(
    corpus: seq<Migration>, window: seq<Migration>, refusal: Refusal, rows: Ledger, log: seq<Event>, from: nat)
    requires Accepts(corpus, window, rows) && AllCameBack(log, from)
    requires forall m <- ToApply(window, rows) ::
      (m.mode == Wrapped || !LeavesOpen(m)) && forall probe <- m.postconditions :: !AnsweredNot(log, from, probe)
    ensures !ApplyFails(corpus, window, refusal, rows, log, from)
  {
    hide HoldsRetired, Fits, LeavesOpen, ToApply, BelowHead;
    NothingFailed(log, from);
    hide SomeFailed, SomeTimedOut, AllCameBack, AnsweredNot;
  }
}
