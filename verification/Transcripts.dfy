// What a session's transcript must hold before a ledger row is worth its word:
// the file's own statements, its probes asked in order and all true, then the row.

module Transcripts {
  import opened Chars
  import opened ExecutionMode
  import opened Migrations
  import opened Database

  datatype Evidence = Asserted | Probes(probes: seq<nat>)

  datatype ManifestEntry = ManifestEntry(version: nat, asserted: bool, probe: Option<nat>)

  // What an adoption goes by: the floor, and the entries of the manifest.
  datatype Given = Given(floor: int, raw: seq<ManifestEntry>)

  const NOTHING_GIVEN := Given(0, [])

  // Every probe asked, in order, and every one true.
  function AllTrue(probes: seq<nat>): (said: seq<Event>)
    ensures |said| == |probes|
  {
    if probes == [] then [] else AllTrue(probes[..|probes| - 1]) + [Asked(probes[|probes| - 1], IsTrue)]
  }

  lemma {:induction false} AllTrueNext(probes: seq<nat>, k: nat)
    requires k < |probes|
    ensures AllTrue(probes[..k + 1]) == AllTrue(probes[..k]) + [Asked(probes[k], IsTrue)]
  {
    assert probes[..k + 1][..k] == probes[..k];
  }

  function StatementSent(m: Migration, n: nat): Event
    requires n < |m.statements|
  {
    if m.statements[n] == Work then Ran(DoWork([Effect(m.version, n)]), Done)
    else Said(m.statements[n], Done)
  }

  // The first `n` statements of a file, sent one by one and all done.
  function Sent(m: Migration, n: nat): seq<Event>
    requires n <= |m.statements|
  {
    if n == 0 then [] else Sent(m, n - 1) + [StatementSent(m, n - 1)]
  }

  // A wrapped file goes as one piece of work, any other statement by statement.
  function FileSent(m: Migration): seq<Event> {
    if m.mode == Wrapped then [Ran(DoWork(WorkOf(m, |m.statements|)), Done)]
    else Sent(m, |m.statements|)
  }

  function RowSent(m: Migration, status: Status, reply: Reply): Event {
    Ran(InsertRow(m.version, Row(m.checksum, status)), reply)
  }

  // One attempt at a file that got as far as its row: every statement done, then
  // every postcondition true, then the row.
  ghost predicate RanWhole(m: Migration, said: seq<Event>) {
    exists reply :: said == FileSent(m) + AllTrue(m.postconditions) + [RowSent(m, Applied, reply)]
  }

  // What was asked about one file's evidence, and the verdict: an assertion asks
  // nothing; probes are asked in order, up to the first that is not true.
  ghost predicate Judged(evidence: Evidence, said: seq<Event>, holds: bool) {
    match evidence
    case Asserted => said == [] && holds
    case Probes(probes) =>
      if holds then said == AllTrue(probes)
      else exists k: nat :: k < |probes| && said == AllTrue(probes[..k]) + [Asked(probes[k], NotTrue)]
  }

  // ----- somewhere in a longer transcript -----

  ghost predicate Earned(m: Migration, said: seq<Event>) {
    exists i: nat, j: nat :: i <= j <= |said| && RanWhole(m, said[i..j])
  }

  ghost predicate Shown(evidence: Evidence, holds: bool, said: seq<Event>) {
    exists i: nat, j: nat :: i <= j <= |said| && Judged(evidence, said[i..j], holds)
  }

  lemma {:induction false} Inside<T>(a: seq<T>, b: seq<T>, c: seq<T>, i: nat, j: nat)
    requires i <= j <= |b|
    ensures (a + b + c)[|a| + i..|a| + j] == b[i..j]
  {
  }

  lemma {:induction false} StillEarned(m: Migration, a: seq<Event>, b: seq<Event>, c: seq<Event>)
    requires Earned(m, b)
    ensures Earned(m, a + b + c)
  {
    hide RanWhole;
    var i: nat, j: nat :| i <= j <= |b| && RanWhole(m, b[i..j]);
    Inside(a, b, c, i, j);
    assert RanWhole(m, (a + b + c)[|a| + i..|a| + j]);
  }

  lemma {:induction false} StillShown(
    evidence: Evidence, holds: bool, a: seq<Event>, b: seq<Event>, c: seq<Event>)
    requires Shown(evidence, holds, b)
    ensures Shown(evidence, holds, a + b + c)
  {
    hide Judged;
    var i: nat, j: nat :| i <= j <= |b| && Judged(evidence, b[i..j], holds);
    Inside(a, b, c, i, j);
    assert Judged(evidence, (a + b + c)[|a| + i..|a| + j], holds);
  }

  // ----- what did not come back -----

  predicate Failed(event: Event) {
    match event
    case Ran(_, reply) => reply != Done
    case Said(_, reply) => reply != Done
    case Asked(_, answer) => answer.Error?
    case Queried(_, answer) => answer.Error?
    case Looked(found) => !found
    case CommitSent(reply) => reply != Done
    case RolledBack(came) => !came
    case Tried(lock) => lock == LockFailed
  }

  predicate TimedOut(event: Event) {
    match event
    case Ran(_, reply) => reply == LockTimeout
    case Said(_, reply) => reply == LockTimeout
    case Asked(_, answer) => answer == Error(true)
    case Queried(_, answer) => answer == Error(true)
    case CommitSent(reply) => reply == LockTimeout
    case _ => false
  }

  // From the `from`th event on, something did not come back, or waited too long
  // for a lock, or was asked and answered otherwise than true.
  ghost predicate SomeFailed(log: seq<Event>, from: nat) {
    exists i :: from <= i < |log| && Failed(log[i])
  }

  ghost predicate SomeTimedOut(log: seq<Event>, from: nat) {
    exists i :: from <= i < |log| && TimedOut(log[i])
  }

  ghost predicate AnsweredNot(log: seq<Event>, from: nat, probe: nat) {
    exists i :: from <= i < |log| && log[i] == Asked(probe, NotTrue)
  }

  lemma {:induction false} SomeStillFailed(log: seq<Event>, later: nat, more: seq<Event>, from: nat)
    requires from <= later && log <= more
    ensures SomeFailed(log, later) ==> SomeFailed(more, from)
    ensures SomeTimedOut(log, later) ==> SomeTimedOut(more, from)
    ensures forall probe :: AnsweredNot(log, later, probe) ==> AnsweredNot(more, from, probe)
  {
    assert forall i :: 0 <= i < |log| ==> more[i] == log[i];
  }

  // The last thing sent did not come back.
  lemma {:induction false} LastFailed(log: seq<Event>, from: nat)
    requires from < |log| && Failed(log[|log| - 1])
    ensures SomeFailed(log, from)
    ensures TimedOut(log[|log| - 1]) ==> SomeTimedOut(log, from)
  {
  }

  // ----- the rows of a ledger -----

  // What proves a file adopted: an entry that asserts it, at or below the floor; an
  // entry whose probe was asked and true; or, unlisted, its postconditions, asked
  // in order and all true.
  ghost predicate Proved(given: Given, m: Migration, said: seq<Event>) {
    || (exists e <- given.raw ::
          && e.version == m.version
          && if e.asserted then e.version <= given.floor
             else e.probe.Some? && Shown(Probes([e.probe.value]), true, said))
    || ((forall e <- given.raw :: e.version != m.version) && Shown(Probes(m.postconditions), true, said))
  }

  // What a row of the ledger rests on: a file that ran whole, or evidence that
  // was shown, or an operator's word for a file of the tree.
  ghost predicate RowShown(
    files: seq<Migration>, given: Given, version: nat, row: Row, said: seq<Event>)
  {
    exists m <- files ::
      && m.version == version && m.checksum == row.checksum
      && match row.status
         case Applied => Earned(m, said)
         case Adopted => Proved(given, m, said)
         case Repaired => true
  }

  // Every row that is new or changed rests on what was said.
  ghost predicate RowsShown(
    files: seq<Migration>, given: Given, before: Ledger, after: Ledger, said: seq<Event>)
  {
    forall v <- after ::
      (v in before && after[v] == before[v]) || RowShown(files, given, v, after[v], said)
  }

  lemma {:induction false} StillProved(
    given: Given, m: Migration, a: seq<Event>, b: seq<Event>, c: seq<Event>)
    requires Proved(given, m, b)
    ensures Proved(given, m, a + b + c)
  {
    hide Shown;
    if exists e <- given.raw ::
         && e.version == m.version
         && if e.asserted then e.version <= given.floor
            else e.probe.Some? && Shown(Probes([e.probe.value]), true, b)
    {
      var e :| e in given.raw && e.version == m.version
        && if e.asserted then e.version <= given.floor
           else e.probe.Some? && Shown(Probes([e.probe.value]), true, b);
      if !e.asserted {
        StillShown(Probes([e.probe.value]), true, a, b, c);
      }
    } else {
      StillShown(Probes(m.postconditions), true, a, b, c);
    }
  }

  lemma {:induction false} RowStillShown(
    files: seq<Migration>, given: Given, version: nat, row: Row,
    a: seq<Event>, b: seq<Event>, c: seq<Event>)
    requires RowShown(files, given, version, row, b)
    ensures RowShown(files, given, version, row, a + b + c)
  {
    hide Earned, Proved;
    var m :| m in files && m.version == version && m.checksum == row.checksum
      && match row.status
         case Applied => Earned(m, b)
         case Adopted => Proved(given, m, b)
         case Repaired => true;
    match row.status
    case Applied => StillEarned(m, a, b, c);
    case Adopted => StillProved(given, m, a, b, c);
    case Repaired =>
  }

  lemma {:induction false} RowsStillShown(
    files: seq<Migration>, given: Given, before: Ledger, after: Ledger,
    a: seq<Event>, b: seq<Event>, c: seq<Event>)
    requires RowsShown(files, given, before, after, b)
    ensures RowsShown(files, given, before, after, a + b + c)
  {
    hide RowShown;
    forall v | v in after && !(v in before && after[v] == before[v])
      ensures RowShown(files, given, v, after[v], a + b + c)
    {
      RowStillShown(files, given, v, after[v], a, b, c);
    }
  }

  // A row that a file just earned, on top of rows that are shown.
  lemma {:induction false} OneMoreRow(
    files: seq<Migration>, given: Given, before: Ledger, mid: Ledger, m: Migration,
    said: seq<Event>)
    requires RowsShown(files, given, before, mid, said) && m in files && Earned(m, said)
    ensures RowsShown(files, given, before, mid[m.version := Row(m.checksum, Applied)], said)
  {
    hide Earned, Proved;
  }

  lemma {:induction false} MoreFiles(
    files: seq<Migration>, others: seq<Migration>, given: Given, before: Ledger,
    after: Ledger, said: seq<Event>)
    requires RowsShown(files, given, before, after, said) && forall m <- files :: m in others
    ensures RowsShown(others, given, before, after, said)
  {
    hide Earned, Proved;
    forall v | v in after && !(v in before && after[v] == before[v])
      ensures RowShown(others, given, v, after[v], said)
    {
      assert RowShown(files, given, v, after[v], said);
    }
  }

  // ----- the end of a run -----

  // How a run that held the lock let it go: the unlock was sent once, with no
  // block open, before the connection closed; or it never was, and then the
  // session was lost by the time it closed.
  predicate LetGo(before: seq<Tx>, unlocks: seq<Tx>, closedAt: Option<Tx>) {
    && closedAt.Some? && closedAt.value in {Idle, Lost}
    && (unlocks == before + [Idle] || (unlocks == before && closedAt == Some(Lost)))
  }
}
