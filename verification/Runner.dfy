// The runner's writing verbs, step by step on one session.

module Runner {
  import opened Chars
  import opened ExecutionMode
  import opened Migrations
  import opened Database
  import opened Transcripts
  import opened LedgerRules
  import opened Outcomes
  import opened Adoption
  import opened Verbs
  import opened Refusals

  // ----- one file -----

  method RunPostconditions(conn: Session, m: Migration) returns (failure: Option<Refusal>)
    modifies conn`working, conn`tx, conn`log
    ensures old(conn.log) <= conn.log
    ensures failure.None? ==>
      && conn.log == old(conn.log) + AllTrue(m.postconditions)
      && conn.View() == old(conn.View())
      && (m.postconditions == [] ==> conn.tx == old(conn.tx))
      && (old(conn.tx) == InTransaction ==> conn.tx == InTransaction)
      && (old(conn.tx) == Idle && conn.autocommit ==> conn.tx == Idle)
    ensures failure == Some(LockNotAvailable) && old(conn.tx) != Lost ==> conn.tx != Lost
    ensures failure.Some? && old(conn.tx) == Idle && conn.autocommit ==> conn.tx in {Idle, Lost}
    ensures failure.Some? ==>
      failure != Some(OpenBlock) && FileFails(m, failure.value, conn.log, |old(conn.log)|)
  {
    for k := 0 to |m.postconditions|
      invariant conn.log == old(conn.log) + AllTrue(m.postconditions[..k])
      invariant conn.View() == old(conn.View())
      invariant k == 0 ==> conn.tx == old(conn.tx)
      invariant k > 0 ==> conn.tx != Lost
      invariant old(conn.tx) == InTransaction ==> conn.tx == InTransaction
      invariant old(conn.tx) == Idle && conn.autocommit ==> conn.tx == Idle
    {
      var answer := conn.Ask(m.postconditions[k]);
      ghost var last := conn.log[|conn.log| - 1];
      if answer.Error? {
        assert Failed(last) && (answer.lockTimeout ==> TimedOut(last));
        return Some(FailureOf(answer));
      }
      if answer != IsTrue {
        assert m.postconditions[k] in m.postconditions && last == Asked(m.postconditions[k], NotTrue);
        return Some(PostconditionFailed);
      }
      AllTrueNext(m.postconditions, k);
      assert conn.log == old(conn.log) + (AllTrue(m.postconditions[..k]) + [Asked(m.postconditions[k], IsTrue)]);
    }
    assert m.postconditions[..|m.postconditions|] == m.postconditions;
    return None;
  }

  method Record(conn: Session, m: Migration, status: Status) returns (reply: Reply)
    requires conn.locked
    modifies conn`committed, conn`working, conn`tx, conn`log
    ensures conn.log == old(conn.log) + [RowSent(m, status, reply)]
    ensures reply == Done ==>
      && old(conn.tx) in {Idle, InTransaction} && m.version !in old(conn.View()).Rows()
      && old(conn.View()).ledger.Some? && conn.View() == Recorded(old(conn.View()), m, status)
      && (if old(conn.tx) == Idle && conn.autocommit then conn.tx == Idle
          else conn.tx == InTransaction && conn.committed == old(conn.committed))
    ensures reply == LockTimeout ==> conn.tx != Lost
    ensures reply != Done ==>
      && conn.tx != InTransaction
      && (conn.tx == Idle ==> old(conn.tx) == Idle && conn.autocommit)
      && (|| conn.committed == old(conn.committed)
          || (&& conn.tx == Lost && old(conn.tx) == Idle && conn.autocommit
              && old(conn.committed).ledger.Some? && m.version !in old(conn.committed).Rows()
              && conn.committed == Recorded(old(conn.committed), m, status)))
  {
    reply := conn.Execute(InsertRow(m.version, Row(m.checksum, status)));
  }

  function RefusalOf(reply: Reply): Refusal {
    if reply == LockTimeout then LockNotAvailable else DatabaseError
  }

  function FailureOf(answer: Answer): Refusal
    requires answer.Error?
  {
    if answer.lockTimeout then LockNotAvailable else DatabaseError
  }

  // A wrapped file's whole transaction, up to the commit.
  method WrappedBody(conn: Session, m: Migration) returns (failure: Option<Refusal>)
    requires conn.locked && conn.tx == Idle && !conn.autocommit && PlainIfWrapped(m) && m.mode == Wrapped
    modifies conn`committed, conn`working, conn`tx, conn`log
    ensures conn.committed == old(conn.committed) && old(conn.log) <= conn.log
    ensures failure.None? ==>
      && conn.tx == InTransaction && conn.working == Completed(old(conn.committed), m)
      && old(conn.committed).ledger.Some? && m.version !in old(conn.committed).Rows()
      && Earned(m, conn.log[|old(conn.log)|..])
    ensures failure == Some(LockNotAvailable) ==> conn.tx != Lost
    ensures failure.Some? ==>
      failure != Some(OpenBlock) && FileFails(m, failure.value, conn.log, |old(conn.log)|)
  {
    hide Completed, AllTrue, FileSent, FileFails, Earned, RanWhole, PlainIfWrapped;
    var lockTimeout := conn.Query(Setting);
    if lockTimeout.Error? {
      FileLastFailed(m, conn.log, |old(conn.log)|);
      return Some(FailureOf(lockTimeout));
    }
    var confirmed := conn.Query(Setting);
    if confirmed.Error? {
      FileLastFailed(m, conn.log, |old(conn.log)|);
      return Some(FailureOf(confirmed));
    }
    ghost var before := conn.log;
    var reply := conn.Execute(DoWork(WorkOf(m, |m.statements|)));
    if reply != Done {
      FileLastFailed(m, conn.log, |old(conn.log)|);
      return Some(RefusalOf(reply));
    }
    WorkIsSent(m);
    WorkCompletes(m, old(conn.committed));
    ghost var sent := conn.log;
    failure := RunPostconditions(conn, m);
    if failure.Some? {
      FileStillFails(m, failure.value, conn.log, |sent|, conn.log, |old(conn.log)|);
      return;
    }
    reply := Record(conn, m, Applied);
    if reply != Done {
      FileLastFailed(m, conn.log, |old(conn.log)|);
      return Some(RefusalOf(reply));
    }
    ThenTheRow(m, before, FileSent(m), conn.log, reply);
    WholeIsEarned(m, old(conn.log), before, conn.log, conn.log);
  }

  lemma {:induction false} FileLastFailed(m: Migration, log: seq<Event>, from: nat)
    requires from < |log| && Failed(log[|log| - 1])
    ensures FileFails(m, DatabaseError, log, from)
    ensures TimedOut(log[|log| - 1]) ==> FileFails(m, LockNotAvailable, log, from)
  {
    LastFailed(log, from);
  }

  lemma {:induction false} WorkIsSent(m: Migration)
    requires m.mode == Wrapped
    ensures FileSent(m) == [Ran(DoWork(WorkOf(m, |m.statements|)), Done)]
  {
  }

  lemma {:induction false} WorkCompletes(m: Migration, db: Db)
    requires PlainIfWrapped(m) && m.mode == Wrapped
    ensures Completed(db, m) == Recorded(db.(effects := db.effects + WorkOf(m, |m.statements|)), m, Applied)
    ensures PlayFile(m, db.effects).open.None?
  {
    PlayPlainWork(m, |m.statements|, db.effects);
  }

  lemma {:induction false} WholeIsEarned(
    m: Migration, start: seq<Event>, before: seq<Event>, to: seq<Event>, log: seq<Event>)
    requires start <= before <= to <= log && RanWhole(m, to[|before|..])
    ensures Earned(m, log[|start|..])
  {
    hide RanWhole;
    var said := log[|start|..];
    assert said[|before| - |start|..|to| - |start|] == to[|before|..];
  }

  // The file's statements, its postconditions and its row are the whole of what
  // was said.
  lemma {:induction false} ThenTheRow(
    m: Migration, before: seq<Event>, sent: seq<Event>, log: seq<Event>, reply: Reply)
    requires sent == FileSent(m)
    requires log == before + sent + AllTrue(m.postconditions) + [RowSent(m, Applied, reply)]
    ensures before <= log && RanWhole(m, log[|before|..])
  {
    hide FileSent, AllTrue;
    assert log == before + (sent + AllTrue(m.postconditions) + [RowSent(m, Applied, reply)]);
    assert log[|before|..] == sent + AllTrue(m.postconditions) + [RowSent(m, Applied, reply)];
  }

  // A file's row was written.
  ghost predicate IsNew(m: Migration, before: Db, after: Db) {
    m.version in after.Rows() && m.version !in before.Rows()
  }

  // One migration, one transaction, the ledger row inside it.
  method ApplyWrapped(conn: Session, m: Migration) returns (failure: Option<Refusal>)
    requires conn.locked && conn.tx == Idle && conn.autocommit && PlainIfWrapped(m) && m.mode == Wrapped
    modifies conn`committed, conn`working, conn`tx, conn`autocommit, conn`log
    ensures conn.autocommit && conn.tx in {Idle, Lost}
    ensures FileEnds(old(conn.committed), m, failure, conn.committed, conn.tx)
    ensures old(conn.log) <= conn.log
    ensures IsNew(m, old(conn.committed), conn.committed) ==> Earned(m, conn.log[|old(conn.log)|..])
    ensures failure == Some(LockNotAvailable) ==>
      conn.tx == Idle && conn.committed == old(conn.committed)
    ensures failure.Some? ==> FileFails(m, failure.value, conn.log, |old(conn.log)|)
  {
    hide Earned, FileFails, PlayFile;
    conn.SetAutocommit(false);
    failure := WrappedBody(conn, m);
    WorkCompletes(m, old(conn.committed));
    ghost var said := conn.log;
    if failure.None? {
      var reply := conn.CommitWork();
      EarnedStill(m, old(conn.log), said, conn.log);
      if reply != Done {
        FileLastFailed(m, conn.log, |old(conn.log)|);
        failure := Some(RefusalOf(reply));
      }
    }
    if failure.Some? {
      var before := conn.tx;
      ghost var sent := conn.log;
      conn.RollbackWork();
      FileStillFails(m, failure.value, sent, |old(conn.log)|, conn.log, |old(conn.log)|);
      if IsNew(m, old(conn.committed), conn.committed) {
        EarnedStill(m, old(conn.log), sent, conn.log);
      }
      if before != Lost && conn.tx == Lost {
        // The rollback's own error replaces the one being handled.
        FileLastFailed(m, conn.log, |old(conn.log)|);
        failure := Some(DatabaseError);
      }
    }
    conn.SetAutocommit(true);
  }

  lemma {:induction false} EarnedStill(m: Migration, start: seq<Event>, said: seq<Event>, log: seq<Event>)
    requires start <= said <= log && Earned(m, said[|start|..])
    ensures Earned(m, log[|start|..])
  {
    hide Earned;
    StillEarned(m, [], said[|start|..], log[|said|..]);
    assert log[|start|..] == [] + said[|start|..] + log[|said|..];
  }

  // Statement by statement in autocommit; the file's transactions are its own.
  method ApplyUnwrapped(conn: Session, m: Migration) returns (failure: Option<Refusal>)
    requires conn.locked && conn.tx == Idle && conn.autocommit && m.mode != Wrapped
    modifies conn`committed, conn`working, conn`tx, conn`log
    ensures FileEnds(old(conn.committed), m, failure, conn.committed, conn.tx)
    ensures old(conn.log) <= conn.log
    ensures IsNew(m, old(conn.committed), conn.committed) ==> Earned(m, conn.log[|old(conn.log)|..])
    ensures failure.Some? ==> FileFails(m, failure.value, conn.log, |old(conn.log)|)
  {
    hide Earned, FileFails, RanWhole, AllTrue, LeavesOpen, Sent;
    ghost var before, n := conn.committed, |m.statements|;
    failure := SendStatements(conn, m);
    if failure.Some? {
      return;
    }
    if conn.tx != Idle {
      PartlyPlayed(before, m, n, conn.committed);
      BlockLeftOpen(m, before.effects, conn.log, |old(conn.log)|);
      return Some(OpenBlock);
    }
    ghost var sent := conn.log;
    failure := RunPostconditions(conn, m);
    if failure.Some? {
      PartlyPlayed(before, m, n, conn.committed);
      conn.RollbackWork();
      FileStillFails(m, failure.value, conn.log, |sent|, conn.log, |old(conn.log)|);
      return;
    }
    var reply := Record(conn, m, Applied);
    ThenTheRow(m, old(conn.log), FileSent(m), conn.log, reply);
    WholeIsEarned(m, old(conn.log), old(conn.log), conn.log, conn.log);
    if reply != Done {
      FileLastFailed(m, conn.log, |old(conn.log)|);
      if conn.committed.ledger == before.ledger {
        PartlyPlayed(before, m, n, conn.committed);
      }
      conn.RollbackWork();
      return Some(RefusalOf(reply));
    }
  }

  // The file's own statements, one by one, up to the first that does not come back.
  method SendStatements(conn: Session, m: Migration) returns (failure: Option<Refusal>)
    requires conn.locked && conn.tx == Idle && conn.autocommit && m.mode != Wrapped
    modifies conn`committed, conn`working, conn`tx, conn`log
    ensures old(conn.log) <= conn.log
    ensures failure.None? ==>
      && conn.log == old(conn.log) + FileSent(m) && conn.tx in {Idle, InTransaction}
      && Played(conn, old(conn.committed), m, |m.statements|)
    ensures failure.Some? ==>
      && PartOf(old(conn.committed), m, conn.committed)
      && FileFails(m, failure.value, conn.log, |old(conn.log)|)
  {
    hide FileFails, PartOf;
    ghost var before := conn.committed;
    var n := 0;
    while n < |m.statements|
      invariant 0 <= n <= |m.statements|
      invariant conn.locked && conn.tx in {Idle, InTransaction}
      invariant Played(conn, before, m, n)
      invariant conn.log == old(conn.log) + Sent(m, n)
    {
      var reply: Reply;
      if m.statements[n] == Work {
        reply := conn.Execute(DoWork([Effect(m.version, n)]));
      } else {
        reply := conn.Say(m.statements[n]);
      }
      if reply != Done {
        PartlyPlayed(before, m, n, conn.committed);
        FileLastFailed(m, conn.log, |old(conn.log)|);
        return Some(RefusalOf(reply));
      }
      assert conn.log == old(conn.log) + (Sent(m, n) + [StatementSent(m, n)]);
      n := n + 1;
    }
    failure := None;
  }

  lemma {:induction false} BlockLeftOpen(m: Migration, effects: seq<Effect>, log: seq<Event>, from: nat)
    requires m.mode != Wrapped && PlayFile(m, effects).open.Some?
    ensures FileFails(m, OpenBlock, log, from)
  {
    OpenAnyway(m, |m.statements|, effects, []);
  }

  // The session after `n` statements, all answered: as the file plays them.
  ghost predicate Played(conn: Session, before: Db, m: Migration, n: nat)
    requires n <= |m.statements|
    reads conn
  {
    var p := PlayFirst(m, n, before.effects);
    && conn.committed == before.(effects := p.done)
    && (p.open.Some? <==> conn.tx == InTransaction)
    && (p.open.Some? ==> conn.working == before.(effects := p.open.value))
  }

  lemma {:induction false} PartlyPlayed(before: Db, m: Migration, n: nat, after: Db)
    requires n <= |m.statements| && m.mode != Wrapped
    requires
      || after == before.(effects := PlayFirst(m, n, before.effects).done)
      || (n < |m.statements| && after == before.(effects := PlayFirst(m, n + 1, before.effects).done))
    ensures PartOf(before, m, after)
  {
  }

  method ApplyOne(conn: Session, m: Migration) returns (failure: Option<Refusal>)
    requires conn.locked && conn.tx == Idle && conn.autocommit && PlainIfWrapped(m)
    modifies conn`committed, conn`working, conn`tx, conn`autocommit, conn`log
    ensures conn.autocommit
    ensures FileEnds(old(conn.committed), m, failure, conn.committed, conn.tx)
    ensures old(conn.log) <= conn.log
    ensures IsNew(m, old(conn.committed), conn.committed) ==> Earned(m, conn.log[|old(conn.log)|..])
    ensures failure.Some? ==> FileFails(m, failure.value, conn.log, |old(conn.log)|)
    ensures m.mode == Wrapped ==> conn.tx in {Idle, Lost}
    ensures m.mode == Wrapped && failure == Some(LockNotAvailable) ==>
      conn.tx == Idle && conn.committed == old(conn.committed)
  {
    if m.mode == Wrapped {
      failure := ApplyWrapped(conn, m);
    } else {
      failure := ApplyUnwrapped(conn, m);
    }
  }

  // The pauses between the attempts at a wrapped file, in seconds.
  const LOCK_RETRY_DELAYS_S: seq<nat> := [1, 2, 4, 8]

  // A wrapped file that failed on a lock wait alone is tried again after each
  // pause; every attempt starts with no transaction open, and `tries` holds what
  // each came to.
  method ApplyGuarded(conn: Session, m: Migration)
    returns (failure: Option<Refusal>, ghost tries: seq<Option<Refusal>>)
    requires conn.locked && conn.tx == Idle && conn.autocommit && PlainIfWrapped(m)
    modifies conn`committed, conn`working, conn`tx, conn`autocommit, conn`log
    ensures conn.autocommit
    ensures FileEnds(old(conn.committed), m, failure, conn.committed, conn.tx)
    ensures old(conn.log) <= conn.log
    ensures IsNew(m, old(conn.committed), conn.committed) ==> Earned(m, conn.log[|old(conn.log)|..])
    ensures m.mode == Wrapped ==> conn.tx in {Idle, Lost}
    ensures tries != [] && tries[|tries| - 1] == failure
    ensures forall k :: 0 <= k < |tries| - 1 ==> tries[k] == Some(LockNotAvailable)
    ensures |tries| <= (if m.mode == Wrapped then 5 else 1)
    ensures m.mode == Wrapped && failure == Some(LockNotAvailable) ==> |tries| == 5
    ensures failure.Some? ==> FileFails(m, failure.value, conn.log, |old(conn.log)|)
  {
    hide FileEnds, Earned, PlainIfWrapped, FileFails;
    var pauses := if m.mode == Wrapped then LOCK_RETRY_DELAYS_S else [];
    tries := [];
    for k := 0 to |pauses|
      invariant conn.locked && conn.tx == Idle && conn.autocommit && conn.committed == old(conn.committed)
      invariant |tries| == k && forall i :: 0 <= i < k ==> tries[i] == Some(LockNotAvailable)
      invariant old(conn.log) <= conn.log
    {
      ghost var before := conn.log;
      failure := ApplyOne(conn, m);
      tries := tries + [failure];
      if failure != Some(LockNotAvailable) {
        LastTry(conn, m, old(conn.committed), failure, old(conn.log), before);
        return;
      }
    }
    ghost var before := conn.log;
    failure := ApplyOne(conn, m);
    tries := tries + [failure];
    LastTry(conn, m, old(conn.committed), failure, old(conn.log), before);
  }

  lemma {:induction false} LastTry(
    conn: Session, m: Migration, start: Db, failure: Option<Refusal>, before: seq<Event>, mid: seq<Event>)
    requires before <= mid <= conn.log
    requires IsNew(m, start, conn.committed) ==> Earned(m, conn.log[|mid|..])
    requires failure.Some? ==> FileFails(m, failure.value, conn.log, |mid|)
    ensures IsNew(m, start, conn.committed) ==> Earned(m, conn.log[|before|..])
    ensures failure.Some? ==> FileFails(m, failure.value, conn.log, |before|)
  {
    hide Earned, FileFails;
    if IsNew(m, start, conn.committed) {
      EarnedLater(m, mid[|before|..], conn.log[|mid|..]);
      assert conn.log[|before|..] == mid[|before|..] + conn.log[|mid|..];
    }
    if failure.Some? {
      FileStillFails(m, failure.value, conn.log, |mid|, conn.log, |before|);
    }
  }

  // ----- the runner lock -----

  // The monotonic clock read again, and after a pause: never earlier.
  method Later(now: real) returns (later: real)
    ensures later >= now
  {
    var passed: real := *;
    later := if passed > 0.0 then now + passed else now;
  }

  method Sleep(now: real, pause: real) returns (later: real)
    requires pause >= 0.0
    ensures later >= now + pause
  {
    later := Later(now + pause);
  }

  // How many pauses of `poll` cover `wait`, and one at least.
  function Rounds(wait: real, poll: real): int
    requires poll > 0.0
  {
    var pauses := -((0.0 - wait) / poll).Floor;
    if pauses < 1 then 1 else pauses
  }

  lemma {:induction false} RoundsCover(wait: real, poll: real, n: nat)
    requires poll > 0.0 && n as real * poll < wait
    ensures n < Rounds(wait, poll)
  {
    var q := (0.0 - wait) / poll;
    assert q * poll == 0.0 - wait;
    assert (q + n as real) * poll < 0.0;
    assert q < -(n as real);
  }

  const RUNNER_LOCK_WAIT: real := 300.0
  const RUNNER_LOCK_POLL_S: real := 0.5

  // Take the runner lock, waiting at most `wait` seconds for another run's.
  method AcquireLock(conn: Session, wait: real, poll: real)
    returns (failure: Option<Refusal>, tries: nat, ghost waited: real)
    requires conn.tx == Idle && conn.autocommit && !conn.locked && poll > 0.0
    modifies conn`committed, conn`working, conn`tx, conn`locked, conn`atLock, conn`log
    ensures conn.tx in {Idle, Lost} && old(conn.log) <= conn.log
    ensures failure.None? <==> conn.locked
    ensures conn.locked ==> conn.tx == Idle && conn.committed == conn.atLock
    ensures failure.Some? ==> LockFails(failure.value, conn.log, |old(conn.log)|)
    ensures 1 <= tries <= 1 + Rounds(wait, poll)
    ensures failure == Some(LockStillHeld) ==> waited >= wait && tries > 1
  {
    hide AllHeld, LockFails;
    tries, waited := 1, 0.0;
    var reply := conn.TryLock();
    if reply == Taken {
      return None, tries, waited;
    }
    if reply == LockFailed {
      TryNotRead(conn.log, |old(conn.log)|);
      return Some(LockNotRead), tries, waited;
    }
    FirstHeld(conn.log, |old(conn.log)|);
    StillHeld(conn.log, |old(conn.log)|);
    var holder := conn.Query(LockHolder);
    var now: real := *;
    now := Later(now);
    ghost var started := now;
    var deadline := now + wait;
    ghost var covered := 0.0;
    while true
      invariant conn.autocommit && !conn.locked && conn.tx in {Idle, Lost} && old(conn.log) <= conn.log
      invariant AllHeld(conn.log, |old(conn.log)|)
      invariant tries >= 1 && covered == (tries - 1) as real * poll
      invariant tries == 1 || covered < wait
      invariant tries == 1 ==> covered == 0.0
      invariant now >= deadline - wait + covered
      decreases Rounds(wait, poll) + 1 - tries
    {
      now := Later(now);
      var left := deadline - now;
      var pause := if left < poll then left else poll;
      now := Sleep(now, if pause < 0.0 then 0.0 else pause);
      if tries > 1 {
        RoundsCover(wait, poll, tries - 1);
      }
      tries := tries + 1;
      covered := covered + poll;
      StillHeld(conn.log, |old(conn.log)|);
      reply := conn.TryLock();
      if reply == Taken {
        return None, tries, waited;
      }
      if reply == LockFailed {
        TryNotRead(conn.log, |old(conn.log)|);
        return Some(LockNotRead), tries, waited;
      }
      StillHeld(conn.log, |old(conn.log)|);
      now := Later(now);
      if now >= deadline {
        waited := now - started;
        holder := conn.Query(LockHolder);
        AllHeldFails(conn.log, |old(conn.log)|);
        return Some(LockStillHeld), tries, waited;
      }
      RoundsCover(wait, poll, tries - 1);
    }
  }

  // Every try so far, and one at least, found the lock another run's.
  ghost predicate AllHeld(log: seq<Event>, from: nat) {
    LockFails(LockStillHeld, log, from)
  }

  lemma {:induction false} AllHeldFails(log: seq<Event>, from: nat)
    requires AllHeld(log, from)
    ensures LockFails(LockStillHeld, log, from)
  {
  }

  lemma {:induction false} TryNotRead(log: seq<Event>, from: nat)
    requires from < |log| && log[|log| - 1] == Tried(LockFailed)
    ensures LockFails(LockNotRead, log, from)
  {
  }

  lemma {:induction false} FirstHeld(log: seq<Event>, from: nat)
    requires |log| == from + 1 && log[from] == Tried(Held)
    ensures AllHeld(log, from)
  {
  }

  lemma {:induction false} StillHeld(log: seq<Event>, from: nat)
    requires AllHeld(log, from)
    ensures forall event: Event :: (event.Tried? ==> event.lock == Held) ==> AllHeld(log + [event], from)
  {
    forall event: Event | event.Tried? ==> event.lock == Held ensures AllHeld(log + [event], from) {
      var i :| from <= i < |log| && log[i] == Tried(Held);
      assert (log + [event])[i] == Tried(Held);
    }
  }

  // Give the lock back before the connection closes. What is still open is ended
  // first; nothing here fails the run.
  method ReleaseLock(conn: Session)
    requires conn.locked && conn.autocommit
    modifies conn`committed, conn`working, conn`tx, conn`locked, conn`log, conn`unlocks
    ensures conn.committed == old(conn.committed) && old(conn.log) <= conn.log
    ensures conn.tx in {Idle, Lost}
    ensures
      || conn.unlocks == old(conn.unlocks) + [Idle]
      || (conn.unlocks == old(conn.unlocks) && conn.tx == Lost)
  {
    if conn.tx != Idle {
      var ended := conn.Say(Rollback);
      if ended != Done {
        return;
      }
    }
    var released := conn.Unlock();
  }

  // ----- apply -----

  datatype ApplyReport = ApplyReport(applied: seq<Migration>, owed: seq<Migration>)

  // The schema and table, created where they are missing, and read access.
  method EnsureLedger(conn: Session) returns (failure: Option<Refusal>)
    requires conn.locked
    modifies conn`committed, conn`working, conn`tx, conn`log
    ensures old(conn.log) <= conn.log
    ensures failure.None? ==>
      && old(conn.tx) in {Idle, InTransaction} && conn.View() == WithTable(old(conn.View()))
      && (if old(conn.tx) == Idle && conn.autocommit then conn.tx == Idle
          else conn.tx == InTransaction && conn.committed == old(conn.committed))
    ensures failure.Some? ==>
      && conn.tx != InTransaction
      && (conn.committed == old(conn.committed)
          || (&& old(conn.tx) == Idle && conn.autocommit
              && conn.committed == WithTable(old(conn.committed))))
    ensures failure.Some? ==> StatementFails(failure.value, conn.log, |old(conn.log)|)
  {
    var reply := conn.Execute(CreateLedger);
    if reply != Done {
      LastFailed(conn.log, |old(conn.log)|);
      return Some(RefusalOf(reply));
    }
    var granted := conn.Query(Grant);
    if granted.Error? {
      LastFailed(conn.log, |old(conn.log)|);
      return Some(FailureOf(granted));
    }
    return None;
  }

  // A statement that did not come back, and whether it waited too long for a lock.
  ghost predicate StatementFails(refusal: Refusal, log: seq<Event>, from: nat) {
    match refusal
    case DatabaseError => SomeFailed(log, from)
    case LockNotAvailable => SomeTimedOut(log, from)
    case _ => false
  }

  // A ledger of retired or mixed history is refused before anything is created.
  method RefuseRetiredHistory(conn: Session, corpus: seq<Migration>) returns (failure: Option<Refusal>)
    requires conn.locked && conn.tx == Idle && conn.autocommit
    modifies conn`working, conn`tx, conn`log
    ensures old(conn.log) <= conn.log
    ensures conn.tx in {Idle, Lost}
    ensures failure.None? ==> conn.tx == Idle && !HoldsRetired(conn.committed.Rows(), corpus)
    ensures failure == Some(RetiredHistory) ==> HoldsRetired(conn.committed.Rows(), corpus)
    ensures failure.Some? ==>
      failure == Some(RetiredHistory) || StatementFails(failure.value, conn.log, |old(conn.log)|)
  {
    var present := conn.Query(TablePresent);
    if present.Error? {
      LastFailed(conn.log, |old(conn.log)|);
      return Some(FailureOf(present));
    }
    if conn.committed.ledger.None? {
      return None;
    }
    var rows := conn.ReadLedger();
    if rows.None? {
      LastFailed(conn.log, |old(conn.log)|);
      return Some(DatabaseError);
    }
    if HoldsRetired(rows.value, corpus) {
      return Some(RetiredHistory);
    }
    return None;
  }

  // The ledger as a verb finds it once it may write: made where missing, read,
  // and free of discrepancies with `window`.
  method OpenLedger(conn: Session, corpus: seq<Migration>, window: seq<Migration>)
    returns (ledger: Ledger, failure: Option<Refusal>)
    requires conn.locked && conn.tx == Idle && conn.autocommit
    modifies conn`committed, conn`working, conn`tx, conn`log
    ensures old(conn.log) <= conn.log
    ensures failure.None? ==>
      && conn.tx == Idle && conn.committed == WithTable(old(conn.committed))
      && ledger == old(conn.committed).Rows()
      && !HoldsRetired(ledger, corpus) && Intact(ledger, window)
    ensures failure.Some? ==>
      conn.committed == old(conn.committed) || conn.committed == WithTable(old(conn.committed))
    ensures failure.Some? ==>
      LedgerFails(corpus, window, failure.value, old(conn.committed).Rows(), conn.log, |old(conn.log)|)
  {
    hide SomeFailed, SomeTimedOut, HoldsRetired, Fits;
    ledger := map[];
    failure := MakeReady(conn, corpus, window);
    if failure.Some? {
      return;
    }
    var rows := conn.ReadLedger();
    if rows.None? {
      LastFailed(conn.log, |old(conn.log)|);
      failure := Some(DatabaseError);
      return;
    }
    ledger := rows.value;
    var issues := LedgerDiscrepancies(ledger, window);
    if issues != [] {
      failure := Some(NotIntact);
    }
  }

  method CheckPending(unrecorded: seq<Migration>, ledger: Ledger) returns (failure: Option<Refusal>)
    ensures failure.None? <==>
      && (forall m <- unrecorded :: m.version != INITIAL_VERSION)
      && (forall m <- Ordinary(unrecorded) :: BelowHead(ledger, m.version) ==> m.reapplySafe)
    ensures failure.Some? ==> failure.value in {InitialUnrecorded, FileBelowHead}
    ensures failure == Some(InitialUnrecorded) ==> exists m <- unrecorded :: m.version == INITIAL_VERSION
    ensures failure == Some(FileBelowHead) ==>
      exists m <- Ordinary(unrecorded) :: BelowHead(ledger, m.version) && !m.reapplySafe
  {
    var head := AppliedHead(ledger);
    for k := 0 to |unrecorded|
      invariant forall j :: 0 <= j < k ==> unrecorded[j].version != INITIAL_VERSION
    {
      if unrecorded[k].version == INITIAL_VERSION {
        assert unrecorded[k] in unrecorded;
        return Some(InitialUnrecorded);
      }
    }
    var pending := Ordinary(unrecorded);
    for k := 0 to |pending|
      invariant forall j :: 0 <= j < k ==> (BelowHead(ledger, pending[j].version) ==> pending[j].reapplySafe)
    {
      if pending[k].version < head && !pending[k].reapplySafe {
        assert pending[k] in pending;
        return Some(FileBelowHead);
      }
    }
    return None;
  }

  // The files of a plan, one after another, until one fails.
  method ApplyPlan(conn: Session, plan: seq<Migration>)
    returns (applied: seq<Migration>, failure: Option<Refusal>)
    requires conn.locked && conn.tx == Idle && conn.autocommit
    requires forall m <- plan :: PlainIfWrapped(m)
    modifies conn`committed, conn`working, conn`tx, conn`autocommit, conn`log
    ensures old(conn.log) <= conn.log
    ensures conn.autocommit && (failure.None? ==> conn.tx == Idle)
    ensures EndsAlong(old(conn.committed), plan, conn.committed, failure.None?)
    ensures
      RowsShown(plan, NOTHING_GIVEN, old(conn.committed).Rows(), conn.committed.Rows(), conn.log[|old(conn.log)|..])
    ensures applied <= plan && (failure.None? ==> applied == plan)
    ensures failure.Some? ==>
      exists m <- plan :: FileFails(m, failure.value, conn.log, |old(conn.log)|)
  {
    hide CompletedAll, Completed, PartOf, PlainIfWrapped, FileEnds, RowsShown, Earned, FileFails;
    ghost var start := conn.committed;
    applied, failure := [], None;
    CompletedNone(start, plan);
    NothingNew(plan, start.Rows());
    assert conn.log[|conn.log|..] == [];
    for k := 0 to |plan|
      invariant conn.locked && conn.tx == Idle && conn.autocommit
      invariant conn.committed == CompletedAll(start, plan[..k])
      invariant applied == plan[..k] && failure.None?
      invariant old(conn.log) <= conn.log
      invariant RowsShown(plan, NOTHING_GIVEN, start.Rows(), conn.committed.Rows(), conn.log[|old(conn.log)|..])
    {
      assert plan[k] in plan;
      CompletedNext(start, plan, k);
      ghost var tries, before, mid := [], conn.log, conn.committed;
      failure, tries := ApplyGuarded(conn, plan[k]);
      OneMoreFile(plan, k, failure, start.Rows(), mid, conn.committed, conn.tx, old(conn.log), before, conn.log);
      if failure.Some? {
        FileStillFails(plan[k], failure.value, conn.log, |before|, conn.log, |old(conn.log)|);
        FileEndsPlan(start, plan, k, failure, conn.committed, conn.tx);
        return;
      }
      FileSucceeded(mid, plan[k], conn.committed, conn.tx);
      applied := applied + [plan[k]];
      assert applied == plan[..k + 1];
    }
    assert plan[..|plan|] == plan;
    assert EndsAfter(start, plan, |plan|, conn.committed, true);
  }

  lemma {:induction false} FileSucceeded(before: Db, m: Migration, after: Db, tx: Tx)
    requires FileEnds(before, m, None, after, tx)
    ensures tx == Idle && after == Completed(before, m)
  {
    hide Completed;
  }

  lemma {:induction false} NothingNew(files: seq<Migration>, rows: Ledger)
    ensures RowsShown(files, NOTHING_GIVEN, rows, rows, [])
  {
  }

  lemma {:induction false} OneMoreFile(
    plan: seq<Migration>, k: nat, failure: Option<Refusal>, start: Ledger, mid: Db, after: Db, tx: Tx,
    from: seq<Event>, before: seq<Event>, log: seq<Event>)
    requires k < |plan| && from <= before <= log
    requires RowsShown(plan, NOTHING_GIVEN, start, mid.Rows(), before[|from|..])
    requires FileEnds(mid, plan[k], failure, after, tx)
    requires IsNew(plan[k], mid, after) ==> Earned(plan[k], log[|before|..])
    ensures RowsShown(plan, NOTHING_GIVEN, start, after.Rows(), log[|from|..])
  {
    hide RowsShown, Earned, PartOf, Completed;
    var more := log[|before|..];
    assert log[|from|..] == before[|from|..] + more;
    Following(plan, start, mid.Rows(), before[|from|..], more);
    if IsNew(plan[k], mid, after) {
      EarnedLater(plan[k], before[|from|..], more);
      CompletedRow(mid, plan[k], after, failure, tx);
      OneMoreRow(plan, NOTHING_GIVEN, start, mid.Rows(), plan[k], before[|from|..] + more);
    } else {
      NoNewRow(mid, plan[k], after, failure, tx);
    }
  }

  lemma {:induction false} Following(
    files: seq<Migration>, start: Ledger, rows: Ledger, said: seq<Event>, more: seq<Event>)
    requires RowsShown(files, NOTHING_GIVEN, start, rows, said)
    ensures RowsShown(files, NOTHING_GIVEN, start, rows, said + more)
  {
    hide RowsShown;
    RowsStillShown(files, NOTHING_GIVEN, start, rows, [], said, more);
    assert [] + said + more == said + more;
  }

  lemma {:induction false} EarnedLater(m: Migration, said: seq<Event>, more: seq<Event>)
    requires Earned(m, more)
    ensures Earned(m, said + more)
  {
    hide Earned;
    StillEarned(m, said, more, []);
    assert said + more + [] == said + more;
  }

  lemma {:induction false} CompletedRow(
    mid: Db, m: Migration, after: Db, failure: Option<Refusal>, tx: Tx)
    requires FileEnds(mid, m, failure, after, tx) && IsNew(m, mid, after)
    ensures after.Rows() == mid.Rows()[m.version := Row(m.checksum, Applied)]
  {
  }

  lemma {:induction false} NoNewRow(mid: Db, m: Migration, after: Db, failure: Option<Refusal>, tx: Tx)
    requires FileEnds(mid, m, failure, after, tx) && !IsNew(m, mid, after)
    ensures after.Rows() == mid.Rows()
  {
  }

  lemma {:induction false} CompletedNone(start: Db, plan: seq<Migration>)
    ensures CompletedAll(start, plan[..0]) == start
  {
  }

  lemma {:induction false} FileEndsPlan(
    start: Db, plan: seq<Migration>, k: nat, failure: Option<Refusal>, after: Db, tx: Tx)
    requires k < |plan| && failure.Some?
    requires FileEnds(CompletedAll(start, plan[..k]), plan[k], failure, after, tx)
    ensures EndsAlong(start, plan, after, false)
  {
    hide CompletedAll, Completed, PartOf;
    CompletedNext(start, plan, k);
    assert EndsAfter(start, plan, k, after, false) || EndsAfter(start, plan, k + 1, after, false);
  }

  method ApplyBody(conn: Session, corpus: seq<Migration>, window: seq<Migration>)
    returns (report: ApplyReport, failure: Option<Refusal>)
    requires conn.locked && conn.tx == Idle && conn.autocommit && IsTree(window)
    modifies conn`committed, conn`working, conn`tx, conn`autocommit, conn`log
    ensures old(conn.log) <= conn.log
    ensures conn.autocommit && (failure.None? ==> conn.tx == Idle)
    ensures ApplyEnds(corpus, window, old(conn.committed), conn.committed, failure.None?)
    ensures
      RowsShown(window, NOTHING_GIVEN, old(conn.committed).Rows(), conn.committed.Rows(), conn.log[|old(conn.log)|..])
    ensures failure.None? ==>
      && report.applied == ToApply(window, old(conn.committed).Rows())
      && report.owed == Owed(Unrecorded(window, old(conn.committed).Rows()))
    ensures report.applied <= ToApply(window, old(conn.committed).Rows())
    ensures failure.Some? ==>
      ApplyFails(corpus, window, failure.value, old(conn.committed).Rows(), conn.log, |old(conn.log)|)
  {
    hide EndsAlong, RowsShown, HoldsRetired, Fits, PlainIfWrapped, BelowHead, FileFails, LedgerFails;
    hide ApplyFails, Ordinary;
    ghost var start := conn.committed;
    report := ApplyReport([], []);
    var ledger;
    ledger, failure := OpenLedger(conn, corpus, window);
    NothingShown(window, start, conn.committed, conn.log[|old(conn.log)|..]);
    if failure.Some? {
      LedgerStopsApply(corpus, window, failure.value, start.Rows(), conn.log, |old(conn.log)|);
      return;
    }
    var unrecorded := Unrecorded(window, ledger);
    failure := CheckPending(unrecorded, ledger);
    if failure.Some? {
      PendingStopsApply(corpus, window, failure.value, ledger, conn.log, |old(conn.log)|);
      return;
    }
    var plan := Ordinary(unrecorded);
    PlanIsPlain(window, ledger);
    var applied;
    ghost var before := conn.log;
    applied, failure := ApplyPlan(conn, plan);
    if failure.Some? {
      FileStopsApply(corpus, window, failure.value, ledger, conn.log, |before|, |old(conn.log)|);
    }
    ShownInRun(
      plan, window, NOTHING_GIVEN, start.Rows(), conn.committed.Rows(), old(conn.log), before, conn.log, conn.log);
    report := ApplyReport(applied, Owed(unrecorded));
  }

  lemma {:induction false} LedgerStopsApply(
    corpus: seq<Migration>, window: seq<Migration>, refusal: Refusal, rows: Ledger, log: seq<Event>, from: nat)
    requires LedgerFails(corpus, window, refusal, rows, log, from)
    ensures ApplyFails(corpus, window, refusal, rows, log, from)
  {
    hide LedgerFails, FileFails;
  }

  lemma {:induction false} PendingStopsApply(
    corpus: seq<Migration>, window: seq<Migration>, refusal: Refusal, rows: Ledger, log: seq<Event>, from: nat)
    requires refusal in {InitialUnrecorded, FileBelowHead}
    requires refusal == InitialUnrecorded ==> exists m <- Unrecorded(window, rows) :: m.version == INITIAL_VERSION
    requires refusal == FileBelowHead ==>
      exists m <- ToApply(window, rows) :: BelowHead(rows, m.version) && !m.reapplySafe
    ensures ApplyFails(corpus, window, refusal, rows, log, from)
  {
    hide LedgerFails, FileFails, Ordinary, BelowHead;
  }

  lemma {:induction false} FileStopsApply(
    corpus: seq<Migration>, window: seq<Migration>, refusal: Refusal, rows: Ledger, log: seq<Event>,
    later: nat, from: nat)
    requires from <= later && exists m <- ToApply(window, rows) :: FileFails(m, refusal, log, later)
    ensures ApplyFails(corpus, window, refusal, rows, log, from)
  {
    hide LedgerFails, FileFails, ToApply;
    var m :| m in ToApply(window, rows) && FileFails(m, refusal, log, later);
    FileStillFails(m, refusal, log, later, log, from);
  }

  lemma {:induction false} PlanIsPlain(window: seq<Migration>, ledger: Ledger)
    requires IsTree(window)
    ensures forall m <- ToApply(window, ledger) :: m in window && PlainIfWrapped(m)
  {
    hide PlainIfWrapped, Ordered;
  }

  // Making the table where it was missing writes no row.
  lemma {:induction false} NothingShown(files: seq<Migration>, before: Db, after: Db, said: seq<Event>)
    requires after == before || after == WithTable(before)
    ensures RowsShown(files, NOTHING_GIVEN, before.Rows(), after.Rows(), said)
  {
  }

  // What a part of a run said, the run said.
  lemma {:induction false} ShownInRun(
    files: seq<Migration>, others: seq<Migration>, given: Given, before: Ledger,
    after: Ledger, start: seq<Event>, from: seq<Event>, to: seq<Event>, log: seq<Event>)
    requires start <= from <= to <= log && forall m <- files :: m in others
    requires RowsShown(files, given, before, after, to[|from|..])
    ensures RowsShown(others, given, before, after, log[|start|..])
  {
    hide RowsShown;
    MoreFiles(files, others, given, before, after, to[|from|..]);
    RowsStillShown(others, given, before, after, from[|start|..], to[|from|..], log[|to|..]);
    assert log[|start|..] == from[|start|..] + to[|from|..] + log[|to|..];
  }

  // Apply every pending file in version order, from the lock to the close.
  method ApplyPending(conn: Session, corpus: seq<Migration>, bound: Option<nat>, pooled: bool)
    returns (report: ApplyReport, failure: Option<Refusal>, ghost held: bool)
    requires conn.tx == Idle && conn.autocommit && !conn.locked && IsTree(corpus)
    modifies conn
    ensures conn.tx == Lost && !conn.locked
    ensures failure == Some(PooledHost) <==> pooled
    ensures pooled ==> !held && conn.log == old(conn.log) && conn.committed == old(conn.committed)
    ensures !pooled && !held ==> failure.Some? && LockFails(failure.value, conn.log, |old(conn.log)|)
    ensures held && failure.Some? ==>
      ApplyFails(
        corpus, Within(corpus, bound), failure.value, conn.atLock.Rows(), conn.log, |old(conn.log)|)
    ensures old(conn.log) <= conn.log
    ensures held ==>
      RunEnds(
        corpus, Apply(bound), conn.atLock, conn.committed, conn.log[|old(conn.log)|..], failure.None?)
    ensures
      if held then LetGo(old(conn.unlocks), conn.unlocks, conn.closedAt) else conn.unlocks == old(conn.unlocks)
    ensures failure.None? ==>
      report.applied == ToApply(Within(corpus, bound), conn.atLock.Rows())
  {
    hide Within, IsTree, ApplyEnds, ToApply, RowsShown, ApplyFails, LockFails;
    report, held := ApplyReport([], []), false;
    if pooled {
      conn.Close();
      failure := Some(PooledHost);
      return;
    }
    var tries;
    ghost var waited;
    failure, tries, waited := AcquireLock(conn, RUNNER_LOCK_WAIT, RUNNER_LOCK_POLL_S);
    LockFailsForItself(failure, conn.log, |old(conn.log)|);
    if failure.None? {
      held := true;
      ghost var start := conn.log;
      WithinIsTree(corpus, bound);
      report, failure := ApplyBody(conn, corpus, Within(corpus, bound));
      ghost var log := conn.log;
      if failure.None? && conn.tx != Idle {
        failure := Some(OpenBlock);
      }
      ReleaseLock(conn);
      ShownInRun(
        Within(corpus, bound), Within(corpus, bound), NOTHING_GIVEN, conn.atLock.Rows(), conn.committed.Rows(),
        old(conn.log), start, log, conn.log);
      if failure.Some? {
        ApplyStillFails(
          corpus, Within(corpus, bound), failure.value, conn.atLock.Rows(), log, |start|, conn.log, |old(conn.log)|);
        ApplyFailsForItself(
          corpus, Within(corpus, bound), failure.value, conn.atLock.Rows(), conn.log, |old(conn.log)|);
      }
    }
    conn.Close();
  }

  lemma {:induction false} LockFailsForItself(failure: Option<Refusal>, log: seq<Event>, from: nat)
    requires failure.Some? ==> LockFails(failure.value, log, from)
    ensures failure != Some(PooledHost)
  {
  }

  lemma {:induction false} ApplyFailsForItself(
    corpus: seq<Migration>, window: seq<Migration>, refusal: Refusal, rows: Ledger, log: seq<Event>, from: nat)
    requires ApplyFails(corpus, window, refusal, rows, log, from)
    ensures refusal != PooledHost
  {
    hide ToApply;
  }

  // ----- apply --manual -----

  method ManualBody(conn: Session, corpus: seq<Migration>, m: Migration) returns (failure: Option<Refusal>)
    requires conn.locked && conn.tx == Idle && conn.autocommit && IsTree(corpus) && m in corpus && m.manual
    modifies conn`committed, conn`working, conn`tx, conn`autocommit, conn`log
    ensures old(conn.log) <= conn.log
    ensures conn.autocommit && (failure.None? ==> conn.tx == Idle)
    ensures ManualEnds(corpus, m.version, old(conn.committed), conn.committed, failure.None?)
    ensures
      RowsShown(corpus, NOTHING_GIVEN, old(conn.committed).Rows(), conn.committed.Rows(), conn.log[|old(conn.log)|..])
    ensures failure.Some? ==>
      ManualFails(corpus, m, failure.value, old(conn.committed).Rows(), conn.log, |old(conn.log)|)
  {
    hide RowsShown, Earned, FileEnds, HoldsRetired, Fits, Ordered, PlainIfWrapped, FileFails, LedgerFails;
    ghost var before := conn.committed;
    var ledger;
    ledger, failure := OpenLedger(conn, corpus, corpus);
    NothingShown(corpus, before, conn.committed, conn.log[|old(conn.log)|..]);
    if failure.Some? {
      return;
    }
    if m.version in ledger {
      return Some(AlreadyRecorded);
    }
    for k := 0 to |corpus|
      invariant forall j :: 0 <= j < k ==>
        corpus[j].version < m.version && !corpus[j].manual ==> corpus[j].version in ledger
    {
      if corpus[k].version < m.version && !corpus[k].manual && corpus[k].version !in ledger {
        return Some(OrdinaryPendingBelow);
      }
    }
    assert ManualAccepts(corpus, m, before.Rows());
    ghost var tries, mid := [], conn.log;
    failure, tries := ApplyGuarded(conn, m);
    if failure.None? {
      FileSucceeded(WithTable(before), m, conn.committed, conn.tx);
    } else {
      FileStillFails(m, failure.value, conn.log, |mid|, conn.log, |old(conn.log)|);
    }
    ManualFile(corpus, m, failure, before, conn.committed, conn.tx, old(conn.log), mid, conn.log);
  }

  lemma {:induction false} ManualFile(
    corpus: seq<Migration>, m: Migration, failure: Option<Refusal>, before: Db, after: Db, tx: Tx,
    start: seq<Event>, mid: seq<Event>, log: seq<Event>)
    requires m in corpus && start <= mid <= log
    requires FileEnds(WithTable(before), m, failure, after, tx)
    requires IsNew(m, WithTable(before), after) ==> Earned(m, log[|mid|..])
    ensures ManualRan(m, before, after, failure.None?)
    ensures RowsShown(corpus, NOTHING_GIVEN, before.Rows(), after.Rows(), log[|start|..])
  {
    hide RowsShown, Earned, PartOf, Completed;
    NothingNew([m], before.Rows());
    assert mid[|mid|..] == [];
    OneMoreFile([m], 0, failure, before.Rows(), WithTable(before), after, tx, mid, mid, log);
    ShownInRun([m], corpus, NOTHING_GIVEN, before.Rows(), after.Rows(), start, mid, log, log);
  }

  // Apply one gated file by version: the operator's door, never a deploy's.
  method ApplyManual(conn: Session, corpus: seq<Migration>, version: nat, pooled: bool)
    returns (failure: Option<Refusal>, ghost held: bool)
    requires conn.tx == Idle && conn.autocommit && !conn.locked && IsTree(corpus)
    modifies conn
    ensures failure == Some(NoSuchFile) <==> !InTree(corpus, version)
    ensures failure == Some(NotManual) <==> exists m <- corpus :: m.version == version && !m.manual
    ensures failure !in {Some(NoSuchFile), Some(NotManual)} ==> conn.tx == Lost && !conn.locked
    ensures failure == Some(PooledHost) <==> pooled && IsGated(corpus, version)
    ensures pooled || !IsGated(corpus, version) ==>
      !held && conn.log == old(conn.log) && conn.committed == old(conn.committed)
    ensures !pooled && IsGated(corpus, version) && !held ==>
      failure.Some? && LockFails(failure.value, conn.log, |old(conn.log)|)
    ensures held && failure.Some? ==>
      exists m <- corpus ::
        m.version == version
        && ManualFails(corpus, m, failure.value, conn.atLock.Rows(), conn.log, |old(conn.log)|)
    ensures old(conn.log) <= conn.log
    ensures held ==>
      RunEnds(
        corpus, Verb.ApplyManual(version), conn.atLock, conn.committed, conn.log[|old(conn.log)|..],
        failure.None?)
    ensures
      if held then LetGo(old(conn.unlocks), conn.unlocks, conn.closedAt) else conn.unlocks == old(conn.unlocks)
  {
    hide RowsShown, ManualEnds, ManualFails, LockFails, PlainIfWrapped;
    held := false;
    var at := 0;
    while at < |corpus| && corpus[at].version != version
      invariant at <= |corpus| && forall j :: 0 <= j < at ==> corpus[j].version != version
    {
      at := at + 1;
    }
    if at == |corpus| {
      failure := Some(NoSuchFile);
      return;
    }
    var m := corpus[at];
    OneOfVersion(corpus, m);
    if !m.manual {
      failure := Some(NotManual);
      return;
    }
    if pooled {
      conn.Close();
      failure := Some(PooledHost);
      return;
    }
    var tries;
    ghost var waited;
    failure, tries, waited := AcquireLock(conn, RUNNER_LOCK_WAIT, RUNNER_LOCK_POLL_S);
    LockFailsForOthers(failure, conn.log, |old(conn.log)|);
    if failure.None? {
      held := true;
      ghost var start := conn.log;
      failure := ManualBody(conn, corpus, m);
      ghost var log := conn.log;
      if failure.None? && conn.tx != Idle {
        failure := Some(OpenBlock);
      }
      ReleaseLock(conn);
      ShownInRun(
        corpus, corpus, NOTHING_GIVEN, conn.atLock.Rows(), conn.committed.Rows(), old(conn.log), start, log,
        conn.log);
      if failure.Some? {
        ManualStillFails(
          corpus, m, failure.value, conn.atLock.Rows(), log, |start|, conn.log, |old(conn.log)|);
        ManualFailsForItself(corpus, m, failure.value, conn.atLock.Rows(), conn.log, |old(conn.log)|);
      }
    }
    conn.Close();
  }

  // A file of the tree that waits for the operator.
  ghost predicate IsGated(corpus: seq<Migration>, version: nat) {
    exists m <- corpus :: m.version == version && m.manual
  }

  lemma {:induction false} OneOfVersion(corpus: seq<Migration>, m: Migration)
    requires IsTree(corpus) && m in corpus
    ensures forall other <- corpus :: other.version == m.version ==> other == m
  {
    hide PlainIfWrapped;
  }

  lemma {:induction false} LockFailsForOthers(failure: Option<Refusal>, log: seq<Event>, from: nat)
    requires failure.Some? ==> LockFails(failure.value, log, from)
    ensures failure.Some? ==> failure.value in {LockStillHeld, LockNotRead}
  {
  }

  lemma {:induction false} ManualFailsForItself(
    corpus: seq<Migration>, m: Migration, refusal: Refusal, rows: Ledger, log: seq<Event>, from: nat)
    requires ManualFails(corpus, m, refusal, rows, log, from)
    ensures refusal !in {PooledHost, NoSuchFile, NotManual}
  {
  }

  // ----- adopt, convert-ledger and repair -----

  // Adoption rows, one after another, inside the caller's transaction.
  method RecordAll(conn: Session, ms: seq<Migration>) returns (reply: Reply)
    requires conn.locked && !conn.autocommit && conn.tx in {Idle, InTransaction}
    modifies conn`committed, conn`working, conn`tx, conn`log
    ensures old(conn.log) <= conn.log
    ensures conn.committed == old(conn.committed)
    ensures reply == Done ==>
      && conn.View() == AdoptAll(old(conn.View()), ms) && conn.tx in {Idle, InTransaction}
      && (old(conn.tx) == InTransaction ==> conn.tx == InTransaction)
    ensures reply != Done ==> conn.tx in {Aborted, Lost}
    ensures reply != Done ==>
      |conn.log| > |old(conn.log)| && Failed(conn.log[|conn.log| - 1])
      && (reply == LockTimeout ==> TimedOut(conn.log[|conn.log| - 1]))
  {
    assert ms[..0] == [];
    for k := 0 to |ms|
      invariant conn.locked && conn.tx in {Idle, InTransaction}
      invariant old(conn.tx) == InTransaction ==> conn.tx == InTransaction
      invariant conn.committed == old(conn.committed)
      invariant conn.View() == AdoptAll(old(conn.View()), ms[..k])
      invariant old(conn.log) <= conn.log
    {
      assert ms[..k + 1][..k] == ms[..k];
      reply := Record(conn, ms[k], Adopted);
      if reply != Done {
        return;
      }
    }
    assert ms[..|ms|] == ms;
    return Done;
  }

  // Leave a transaction: commit it, or roll it back and go on failing.
  method EndTransaction(conn: Session, failed: bool) returns (ok: bool)
    requires conn.locked && !conn.autocommit
    requires !failed ==> conn.tx in {Idle, InTransaction}
    modifies conn`committed, conn`working, conn`tx, conn`autocommit, conn`log
    ensures conn.autocommit && old(conn.log) <= conn.log
    ensures ok ==> !failed && conn.tx == Idle && conn.committed == old(conn.View())
    ensures !ok ==>
      || conn.committed == old(conn.committed)
      || (!failed && conn.committed == old(conn.View()))
    ensures !ok && !failed ==> SomeFailed(conn.log, |old(conn.log)|)
  {
    ok := !failed;
    if ok {
      var reply := conn.CommitWork();
      ok := reply == Done;
      if !ok {
        LastFailed(conn.log, |old(conn.log)|);
      }
    }
    if !ok {
      ghost var sent := conn.log;
      conn.RollbackWork();
      SomeStillFailed(sent, |old(conn.log)|, conn.log, |old(conn.log)|);
    }
    conn.SetAutocommit(true);
  }

  method AdoptBody(
    conn: Session, corpus: seq<Migration>, window: seq<Migration>, floor: int, entries: map<nat, Evidence>)
    returns (failure: Option<Refusal>)
    requires conn.locked && conn.tx == Idle && conn.autocommit
    requires IsTree(window) && Pairs(entries, floor, window, corpus)
    modifies conn`committed, conn`working, conn`tx, conn`autocommit, conn`log
    ensures old(conn.log) <= conn.log
    ensures conn.autocommit && (failure.None? ==> conn.tx == Idle)
    ensures
      AdoptEnds(
        corpus, window, floor, entries, old(conn.committed), conn.committed, conn.log[|old(conn.log)|..],
        failure.None?)
    ensures failure.Some? ==>
      AdoptFails(
        corpus, window, floor, entries, failure.value, old(conn.committed).Rows(), conn.log, |old(conn.log)|)
  {
    hide HoldsRetired, Intact, Coherent, AdoptAll, Answered, PlanDeserves, LedgerFails;
    ghost var start := WithTable(conn.committed);
    failure := MakeReady(conn, corpus, window);
    if failure.Some? {
      return;
    }
    var toRecord, fault;
    ghost var results, asked := map[], conn.log;
    toRecord, fault, results := AdoptionPlan(conn, window, floor, entries);
    ghost var answered := conn.log;
    if fault.Some? {
      PlanStillDeserves(
        fault.value, window, Some(start.Rows()), floor, entries, conn.log, |asked|, conn.log, |old(conn.log)|);
      return Some(NotAdopted);
    }
    failure := RecordRows(conn, corpus, window, toRecord);
    AnsweredInRun(Unrecorded(window, start.Rows()), entries, results, old(conn.log), asked, answered, conn.log);
    assert Adopts(
      window, start.Rows(), floor, entries, start, AdoptAll(start, toRecord), conn.log[|old(conn.log)|..]);
    if failure.Some? {
      LedgerStillFails(
        corpus, window, failure.value, start.Rows(), conn.log, |answered|, conn.log, |old(conn.log)|);
    }
  }

  // No retired history, and a ledger table to write to.
  method MakeReady(conn: Session, corpus: seq<Migration>, window: seq<Migration>)
    returns (failure: Option<Refusal>)
    requires conn.locked && conn.tx == Idle && conn.autocommit
    modifies conn`committed, conn`working, conn`tx, conn`log
    ensures old(conn.log) <= conn.log
    ensures failure.None? ==>
      && conn.tx == Idle && conn.committed == WithTable(old(conn.committed))
      && !HoldsRetired(old(conn.committed).Rows(), corpus)
    ensures failure.Some? ==>
      conn.committed == old(conn.committed) || conn.committed == WithTable(old(conn.committed))
    ensures failure.Some? ==>
      LedgerFails(corpus, window, failure.value, old(conn.committed).Rows(), conn.log, |old(conn.log)|)
  {
    hide SomeFailed, SomeTimedOut, HoldsRetired, Intact;
    failure := RefuseRetiredHistory(conn, corpus);
    if failure.Some? {
      return;
    }
    ghost var before := conn.log;
    failure := EnsureLedger(conn);
    if failure.Some? {
      SomeStillFailed(conn.log, |before|, conn.log, |old(conn.log)|);
    }
  }

  // All or nothing: every adoption row lands in one transaction.
  method RecordRows(conn: Session, corpus: seq<Migration>, window: seq<Migration>, ms: seq<Migration>)
    returns (failure: Option<Refusal>)
    requires conn.locked && conn.tx == Idle && conn.autocommit
    modifies conn`committed, conn`working, conn`tx, conn`autocommit, conn`log
    ensures old(conn.log) <= conn.log
    ensures conn.autocommit && (failure.None? ==> conn.tx == Idle)
    ensures conn.committed == AdoptAll(old(conn.committed), ms)
      || (failure.Some? && conn.committed == old(conn.committed))
    ensures failure.Some? ==>
      LedgerFails(corpus, window, failure.value, old(conn.committed).Rows(), conn.log, |old(conn.log)|)
  {
    hide SomeFailed, SomeTimedOut, HoldsRetired, Intact, AdoptAll;
    conn.SetAutocommit(false);
    var reply := RecordAll(conn, ms);
    if reply != Done {
      LastFailed(conn.log, |old(conn.log)|);
    }
    ghost var recorded := conn.log;
    var ok := EndTransaction(conn, reply != Done);
    if !ok {
      SomeStillFailed(recorded, |old(conn.log)|, conn.log, |old(conn.log)|);
      SomeStillFailed(conn.log, |recorded|, conn.log, |old(conn.log)|);
      return Some(RefusalOf(reply));
    }
    return None;
  }

  lemma {:induction false} AnsweredInRun(
    candidates: seq<Migration>, entries: map<nat, Evidence>, results: Results,
    start: seq<Event>, from: seq<Event>, to: seq<Event>, log: seq<Event>)
    requires start <= from <= to <= log
    requires Answered(candidates, entries, results, to[|from|..])
    ensures Answered(candidates, entries, results, log[|start|..])
  {
    hide Answered;
    StillAnswered(candidates, entries, results, from[|start|..], to[|from|..], log[|to|..]);
    assert log[|start|..] == from[|start|..] + to[|from|..] + log[|to|..];
  }

  lemma {:induction false} AdoptsInRun(
    window: seq<Migration>, ledger: Ledger, floor: int, entries: map<nat, Evidence>, start: Db, after: Db,
    from: seq<Event>, to: seq<Event>, log: seq<Event>)
    requires from <= to <= log && Adopts(window, ledger, floor, entries, start, after, to[|from|..])
    ensures Adopts(window, ledger, floor, entries, start, after, log[|from|..])
  {
    AdoptsLater(window, ledger, floor, entries, start, after, from, from, to, log);
  }

  lemma {:induction false} AdoptsLater(
    window: seq<Migration>, ledger: Ledger, floor: int, entries: map<nat, Evidence>, start: Db, after: Db,
    first: seq<Event>, from: seq<Event>, to: seq<Event>, log: seq<Event>)
    requires first <= from <= to <= log && Adopts(window, ledger, floor, entries, start, after, to[|from|..])
    ensures Adopts(window, ledger, floor, entries, start, after, log[|first|..])
  {
    hide Intact, Answered, AdoptAll;
    var results :|
      && Coherent(Unrecorded(window, ledger), floor, entries, results)
      && Answered(Unrecorded(window, ledger), entries, results, to[|from|..])
      && after == AdoptAll(start, Proven(Unrecorded(window, ledger), results));
    AnsweredInRun(Unrecorded(window, ledger), entries, results, first, from, to, log);
  }

  lemma {:induction false} AdoptEndsInRun(
    corpus: seq<Migration>, window: seq<Migration>, floor: int, entries: map<nat, Evidence>,
    before: Db, after: Db, ok: bool, first: seq<Event>, from: seq<Event>, to: seq<Event>, log: seq<Event>)
    requires first <= from <= to <= log
    requires AdoptEnds(corpus, window, floor, entries, before, after, to[|from|..], ok)
    ensures AdoptEnds(corpus, window, floor, entries, before, after, log[|first|..], ok)
  {
    hide Adopts, HoldsRetired;
    if Adopts(window, before.Rows(), floor, entries, WithTable(before), after, to[|from|..]) {
      AdoptsLater(window, before.Rows(), floor, entries, WithTable(before), after, first, from, to, log);
    }
  }

  // Enter a database that predates the ledger into it, on evidence alone.
  method Adopt(
    conn: Session, corpus: seq<Migration>, bound: Option<nat>, floor: int, raw: seq<ManifestEntry>, pooled: bool)
    returns (failure: Option<Refusal>, ghost entries: map<nat, Evidence>, ghost held: bool)
    requires conn.tx == Idle && conn.autocommit && !conn.locked && IsTree(corpus)
    modifies conn
    ensures failure == Some(ManifestRefused) <==> !Readable(raw, floor, Within(corpus, bound), corpus)
    ensures failure != Some(ManifestRefused) ==>
      Manifested(entries, raw, Within(corpus, bound)) && conn.tx == Lost && !conn.locked
    ensures failure == Some(PooledHost) <==> pooled && failure != Some(ManifestRefused)
    ensures pooled || failure == Some(ManifestRefused) ==>
      !held && conn.log == old(conn.log) && conn.committed == old(conn.committed)
    ensures !pooled && !held && failure != Some(ManifestRefused) ==>
      failure.Some? && LockFails(failure.value, conn.log, |old(conn.log)|)
    ensures old(conn.log) <= conn.log
    ensures held && failure.Some? ==>
      AdoptFails(
        corpus, Within(corpus, bound), floor, entries, failure.value, conn.atLock.Rows(), conn.log,
        |old(conn.log)|)
    ensures held ==>
      RunEnds(
        corpus, Verb.Adopt(bound, floor, raw), conn.atLock, conn.committed, conn.log[|old(conn.log)|..],
        failure.None?)
    ensures
      if held then LetGo(old(conn.unlocks), conn.unlocks, conn.closedAt) else conn.unlocks == old(conn.unlocks)
  {
    hide Within, AdoptEnds, Pairs, PlainIfWrapped, Ordered, AdoptFails, LockFails, Readable, Manifested;
    held, entries := false, map[];
    var window := Within(corpus, bound);
    WithinIsTree(corpus, bound);
    var manifest := LoadManifest(floor, raw, window, corpus);
    if manifest.Refused? {
      failure := Some(ManifestRefused);
      return;
    }
    entries := manifest.entries;
    if pooled {
      conn.Close();
      failure := Some(PooledHost);
      return;
    }
    var tries;
    ghost var waited;
    failure, tries, waited := AcquireLock(conn, RUNNER_LOCK_WAIT, RUNNER_LOCK_POLL_S);
    LockFailsForOthers(failure, conn.log, |old(conn.log)|);
    if failure.None? {
      held := true;
      ghost var start := conn.log;
      failure := AdoptBody(conn, corpus, window, floor, manifest.entries);
      ghost var log := conn.log;
      if failure.None? && conn.tx != Idle {
        failure := Some(OpenBlock);
      }
      ReleaseLock(conn);
      AdoptEndsInRun(
        corpus, window, floor, entries, conn.atLock, conn.committed, failure.None?, old(conn.log), start, log,
        conn.log);
      if failure.Some? {
        AdoptStillFails(
          corpus, window, floor, entries, failure.value, conn.atLock.Rows(), log, |start|, conn.log,
          |old(conn.log)|);
        AdoptFailsForItself(
          corpus, window, floor, entries, failure.value, conn.atLock.Rows(), conn.log, |old(conn.log)|);
      }
    }
    conn.Close();
  }

  lemma {:induction false} AdoptFailsForItself(
    corpus: seq<Migration>, window: seq<Migration>, floor: int, entries: map<nat, Evidence>,
    refusal: Refusal, rows: Ledger, log: seq<Event>, from: nat)
    requires from <= |log| && AdoptFails(corpus, window, floor, entries, refusal, rows, log, from)
    ensures refusal !in {PooledHost, ManifestRefused}
  {
  }

  // What a conversion asks before it renames anything: the owner's session, no
  // earlier retired table, and a ledger of nothing but retired rows.
  // A question that has to come back.
  method Must(conn: Session, question: Question) returns (answer: Answer, failure: Option<Refusal>)
    requires conn.tx in {Idle, InTransaction} && !conn.autocommit
    modifies conn`working, conn`tx, conn`log
    ensures conn.log == old(conn.log) + [Queried(question, answer)]
    ensures failure.None? ==>
      !answer.Error? && conn.tx == InTransaction && conn.View() == old(conn.View())
    ensures failure.Some? ==> StatementFails(failure.value, conn.log, |old(conn.log)|)
  {
    answer := conn.Query(question);
    if answer.Error? {
      LastFailed(conn.log, |old(conn.log)|);
      return answer, Some(FailureOf(answer));
    }
    failure := None;
  }

  method HoldsOnlyRetired(ledger: Ledger, corpus: seq<Migration>) returns (only: bool)
    ensures only <==> OnlyRetired(ledger, corpus)
  {
    if ledger == map[] || (exists v <- ledger :: v > RETIRED_CHAIN_LAST_VERSION || v < 1) {
      return false;
    }
    if exists v <- ledger :: exists m <- corpus ::
         m.checksum == ledger[v].checksum || m.name == ledger[v].checksum {
      return false;
    }
    return true;
  }

  // What a conversion asks before it renames anything: the owner's session, no
  // earlier retired table, and a ledger of nothing but retired rows.
  method ConvertChecks(conn: Session, corpus: seq<Migration>) returns (failure: Option<Refusal>)
    requires conn.locked && conn.tx == Idle && !conn.autocommit
    modifies conn`committed, conn`working, conn`tx, conn`log
    ensures old(conn.log) <= conn.log
    ensures conn.committed == old(conn.committed)
    ensures failure.None? ==>
      && conn.tx == InTransaction && conn.working == conn.committed
      && conn.committed.ledger.Some? && conn.committed.legacy.None?
      && OnlyRetired(conn.committed.ledger.value, corpus)
    ensures failure.Some? ==>
      CheckFails(corpus, failure.value, conn.committed, conn.log, |old(conn.log)|)
  {
    hide SomeFailed, SomeTimedOut, OnlyRetired;
    var answer;
    answer, failure := Must(conn, Isolation);
    if failure.Some? {
      return;
    }
    failure := ConvertAnswers(conn, corpus);
    if failure.Some? {
      CheckStillFails(corpus, failure.value, conn.committed, conn.log, |old(conn.log)| + 1, conn.log, |old(conn.log)|);
      return;
    }
    ghost var asked := conn.log;
    var rows := conn.ReadLedger();
    if rows.None? {
      LastFailed(conn.log, |old(conn.log)|);
      return Some(DatabaseError);
    }
    var only := HoldsOnlyRetired(rows.value, corpus);
    if !only {
      return Some(NotConvertible);
    }
    return None;
  }

  method ConvertAnswers(conn: Session, corpus: seq<Migration>) returns (failure: Option<Refusal>)
    requires conn.locked && conn.tx == InTransaction && !conn.autocommit
    modifies conn`working, conn`tx, conn`log
    ensures old(conn.log) <= conn.log
    ensures failure.None? ==>
      && conn.tx == InTransaction && conn.working == old(conn.working)
      && conn.working.ledger.Some? && conn.working.legacy.None?
    ensures failure.Some? ==>
      CheckFails(corpus, failure.value, old(conn.working), conn.log, |old(conn.log)|)
  {
    hide SomeFailed, SomeTimedOut, OnlyRetired;
    var questions: seq<Question> := [Owner, LegacyTable, TablePresent, TableLock, Layout];
    for k := 0 to |questions|
      invariant conn.tx == InTransaction && conn.working == old(conn.working) && old(conn.log) <= conn.log
      invariant k > 1 ==> conn.working.legacy.None?
      invariant k > 2 ==> conn.working.ledger.Some?
    {
      ghost var before := conn.log;
      var answer;
      answer, failure := Must(conn, questions[k]);
      if failure.Some? {
        SomeStillFailed(conn.log, |before|, conn.log, |old(conn.log)|);
        return;
      }
      if
        || (questions[k] in {Owner, Layout} && answer != IsTrue)
        || (questions[k] == LegacyTable && conn.View().legacy.Some?)
        || (questions[k] == TablePresent && conn.View().ledger.None?)
      {
        assert conn.log[|conn.log| - 1] == Queried(questions[k], answer);
        return Some(NotConvertible);
      }
    }
    failure := None;
  }

  method ConvertTransaction(
    conn: Session, corpus: seq<Migration>, floor: int, entries: map<nat, Evidence>)
    returns (failure: Option<Refusal>)
    requires conn.locked && conn.tx == Idle && !conn.autocommit
    requires IsTree(corpus) && forall m <- corpus :: m.version in entries
    modifies conn`committed, conn`working, conn`tx, conn`log
    ensures old(conn.log) <= conn.log
    ensures conn.committed == old(conn.committed)
    ensures failure.None? ==>
      && conn.tx == InTransaction
      && conn.committed.ledger.Some? && conn.committed.legacy.None?
      && OnlyRetired(conn.committed.ledger.value, corpus)
      && Adopts(
           corpus, map[], floor, entries, Retired(conn.committed), conn.working, conn.log[|old(conn.log)|..])
    ensures failure.Some? ==>
      ConvertFails(corpus, floor, entries, failure.value, conn.committed, conn.log, |old(conn.log)|)
  {
    hide OnlyRetired, Intact, Coherent, AdoptAll, Answered, PlanDeserves, CheckFails;
    failure := RetireTable(conn, corpus);
    if failure.Some? {
      return;
    }
    var toRecord, fault;
    ghost var results, asked := map[], conn.log;
    toRecord, fault, results := AdoptionPlan(conn, corpus, floor, entries);
    ghost var answered := conn.log;
    if fault.Some? {
      PlanStillDeserves(
        fault.value, corpus, Some(map[]), floor, entries, conn.log, |asked|, conn.log, |old(conn.log)|);
      return Some(NotAdopted);
    }
    var reply := RecordAll(conn, toRecord);
    if reply != Done {
      StatementIsCheck(corpus, reply, conn.committed, conn.log, |old(conn.log)|);
      return Some(RefusalOf(reply));
    }
    AnsweredInRun(Unrecorded(corpus, map[]), entries, results, old(conn.log), asked, answered, conn.log);
  }

  lemma {:induction false} StatementIsCheck(
    corpus: seq<Migration>, reply: Reply, before: Db, log: seq<Event>, from: nat)
    requires from < |log| && Failed(log[|log| - 1])
    requires reply == LockTimeout ==> TimedOut(log[|log| - 1])
    ensures CheckFails(corpus, RefusalOf(reply), before, log, from)
  {
    hide OnlyRetired;
    LastFailed(log, from);
  }

  // The retired table under its new name, and an empty ledger in its place.
  method RetireTable(conn: Session, corpus: seq<Migration>) returns (failure: Option<Refusal>)
    requires conn.locked && conn.tx == Idle && !conn.autocommit
    modifies conn`committed, conn`working, conn`tx, conn`log
    ensures old(conn.log) <= conn.log
    ensures conn.committed == old(conn.committed)
    ensures failure.None? ==>
      && conn.tx == InTransaction && conn.working == Retired(conn.committed)
      && conn.committed.ledger.Some? && conn.committed.legacy.None?
      && OnlyRetired(conn.committed.ledger.value, corpus)
    ensures failure.Some? ==>
      CheckFails(corpus, failure.value, conn.committed, conn.log, |old(conn.log)|)
  {
    hide OnlyRetired, SomeFailed, SomeTimedOut;
    failure := ConvertChecks(conn, corpus);
    if failure.Some? {
      return;
    }
    var reply := conn.Execute(RetireLedger);
    if reply != Done {
      LastFailed(conn.log, |old(conn.log)|);
      return Some(RefusalOf(reply));
    }
    ghost var retired := conn.log;
    failure := EnsureLedger(conn);
    if failure.Some? {
      SomeStillFailed(conn.log, |retired|, conn.log, |old(conn.log)|);
    }
  }

  method ConvertBody(conn: Session, corpus: seq<Migration>, floor: int, entries: map<nat, Evidence>)
    returns (failure: Option<Refusal>)
    requires conn.locked && conn.tx == Idle && conn.autocommit
    requires IsTree(corpus) && forall m <- corpus :: m.version in entries
    modifies conn`committed, conn`working, conn`tx, conn`autocommit, conn`log
    ensures old(conn.log) <= conn.log
    ensures conn.autocommit && (failure.None? ==> conn.tx == Idle)
    ensures
      ConvertEnds(
        corpus, floor, entries, old(conn.committed), conn.committed, conn.log[|old(conn.log)|..], failure.None?)
    ensures failure.Some? ==>
      ConvertFails(corpus, floor, entries, failure.value, old(conn.committed), conn.log, |old(conn.log)|)
  {
    hide OnlyRetired, Adopts, ConvertFails, SomeFailed;
    conn.SetAutocommit(false);
    failure := ConvertTransaction(conn, corpus, floor, entries);
    ghost var said, converted := conn.log, conn.working;
    var ok := EndTransaction(conn, failure.Some?);
    if failure.Some? {
      ConvertStillFails(
        corpus, floor, entries, failure.value, old(conn.committed), said, |old(conn.log)|, conn.log, |old(conn.log)|);
    } else {
      AdoptsInRun(
        corpus, map[], floor, entries, Retired(old(conn.committed)), converted, old(conn.log), said, conn.log);
      if !ok {
        SomeStillFailed(conn.log, |said|, conn.log, |old(conn.log)|);
        CommitFails(corpus, floor, entries, old(conn.committed), conn.log, |old(conn.log)|);
        failure := Some(DatabaseError);
      }
    }
  }

  lemma {:induction false} ConvertEndsInRun(
    corpus: seq<Migration>, floor: int, entries: map<nat, Evidence>,
    before: Db, after: Db, ok: bool, first: seq<Event>, from: seq<Event>, to: seq<Event>, log: seq<Event>)
    requires first <= from <= to <= log
    requires ConvertEnds(corpus, floor, entries, before, after, to[|from|..], ok)
    ensures ConvertEnds(corpus, floor, entries, before, after, log[|first|..], ok)
  {
    hide Adopts, OnlyRetired;
    if Adopts(corpus, map[], floor, entries, Retired(before), after, to[|from|..]) {
      AdoptsLater(corpus, map[], floor, entries, Retired(before), after, first, from, to, log);
    }
  }

  // Keep the retired ledger under its new name and adopt the current chain, both
  // or neither.
  method ConvertLedger(
    conn: Session, corpus: seq<Migration>, floor: int, raw: seq<ManifestEntry>, confirmed: bool, pooled: bool)
    returns (failure: Option<Refusal>, ghost entries: map<nat, Evidence>, ghost held: bool)
    requires conn.tx == Idle && conn.autocommit && !conn.locked && IsTree(corpus)
    modifies conn
    ensures failure == Some(NotConfirmed) <==> !confirmed
    ensures failure == Some(ManifestRefused) <==> confirmed && !Readable(raw, floor, corpus, corpus)
    ensures confirmed && Readable(raw, floor, corpus, corpus) ==>
      Manifested(entries, raw, corpus) && conn.tx == Lost && !conn.locked
    ensures failure == Some(PooledHost) <==> pooled && confirmed && Readable(raw, floor, corpus, corpus)
    ensures pooled || failure in {Some(NotConfirmed), Some(ManifestRefused)} ==>
      !held && conn.log == old(conn.log) && conn.committed == old(conn.committed)
    ensures !held ==>
      && failure.Some?
      && (failure.value in {NotConfirmed, ManifestRefused, PooledHost}
          || LockFails(failure.value, conn.log, |old(conn.log)|))
    ensures old(conn.log) <= conn.log
    ensures held && failure.Some? ==>
      ConvertFails(corpus, floor, entries, failure.value, conn.atLock, conn.log, |old(conn.log)|)
    ensures held ==>
      RunEnds(
        corpus, Verb.ConvertLedger(floor, raw), conn.atLock, conn.committed, conn.log[|old(conn.log)|..],
        failure.None?)
    ensures
      if held then LetGo(old(conn.unlocks), conn.unlocks, conn.closedAt) else conn.unlocks == old(conn.unlocks)
  {
    hide ConvertEnds, Readable, Manifested, Ordered, PlainIfWrapped, ConvertFails, LockFails;
    held, entries := false, map[];
    if !confirmed {
      failure := Some(NotConfirmed);
      return;
    }
    var manifest := LoadManifest(floor, raw, corpus, corpus);
    if manifest.Refused? {
      failure := Some(ManifestRefused);
      return;
    }
    entries := manifest.entries;
    if pooled {
      conn.Close();
      failure := Some(PooledHost);
      return;
    }
    var tries;
    ghost var waited;
    failure, tries, waited := AcquireLock(conn, RUNNER_LOCK_WAIT, RUNNER_LOCK_POLL_S);
    LockFailsForOthers(failure, conn.log, |old(conn.log)|);
    if failure.None? {
      held := true;
      ghost var start := conn.log;
      failure := ConvertBody(conn, corpus, floor, manifest.entries);
      ghost var ended := conn.log;
      if failure.None? && conn.tx != Idle {
        failure := Some(OpenBlock);
      }
      ReleaseLock(conn);
      ConvertEndsInRun(
        corpus, floor, entries, conn.atLock, conn.committed, failure.None?, old(conn.log), start, ended, conn.log);
      if failure.Some? {
        ConvertStillFails(
          corpus, floor, entries, failure.value, conn.atLock, ended, |start|, conn.log, |old(conn.log)|);
        ConvertFailsForItself(
          corpus, floor, entries, failure.value, conn.atLock, conn.log, |old(conn.log)|);
      }
    }
    conn.Close();
  }

  lemma {:induction false} CommitFails(
    corpus: seq<Migration>, floor: int, entries: map<nat, Evidence>, before: Db, log: seq<Event>, from: nat)
    requires from <= |log| && SomeFailed(log, from)
    ensures ConvertFails(corpus, floor, entries, DatabaseError, before, log, from)
  {
  }

  lemma {:induction false} ConvertFailsForItself(
    corpus: seq<Migration>, floor: int, entries: map<nat, Evidence>,
    refusal: Refusal, before: Db, log: seq<Event>, from: nat)
    requires from <= |log| && ConvertFails(corpus, floor, entries, refusal, before, log, from)
    ensures refusal !in {PooledHost, ManifestRefused, NotConfirmed}
  {
  }

  method RepairBody(conn: Session, corpus: seq<Migration>, m: Migration) returns (failure: Option<Refusal>)
    requires conn.locked && conn.tx == Idle && conn.autocommit && m in corpus
    modifies conn`committed, conn`working, conn`tx, conn`log
    ensures old(conn.log) <= conn.log
    ensures failure.None? ==> conn.tx == Idle
    ensures RepairEnds(corpus, m.version, old(conn.committed), conn.committed, failure.None?)
    ensures failure.Some? ==>
      RepairFails(
        corpus, m.version, failure.value, old(conn.committed).Rows(), conn.log, |old(conn.log)|)
  {
    hide HoldsRetired, SomeFailed, SomeTimedOut;
    ghost var before := conn.committed;
    failure := RefuseRetiredHistory(conn, corpus);
    if failure.Some? {
      return;
    }
    ghost var checked := conn.log;
    failure := EnsureLedger(conn);
    if failure.Some? {
      SomeStillFailed(conn.log, |checked|, conn.log, |old(conn.log)|);
      return;
    }
    var reply, rowcount := conn.Update(m.version, Row(m.checksum, Repaired));
    assert m.version in before.Rows() ==>
      Changed(WithTable(before), UpdateRow(m.version, Row(m.checksum, Repaired))) ==
      Some(Recorded(before, m, Repaired));
    if reply != Done {
      LastFailed(conn.log, |old(conn.log)|);
      return Some(RefusalOf(reply));
    }
    if rowcount != 1 {
      return Some(NoSuchRow);
    }
    return None;
  }

  // Record a deliberate checksum exception, with its reason.
  method Repair(conn: Session, corpus: seq<Migration>, version: nat, reason: string, pooled: bool)
    returns (failure: Option<Refusal>, ghost held: bool)
    requires conn.tx == Idle && conn.autocommit && !conn.locked && IsTree(corpus)
    modifies conn
    ensures failure == Some(NoReason) <==> Blank(reason)
    ensures failure == Some(NoSuchFile) <==> !Blank(reason) && !InTree(corpus, version)
    ensures !Blank(reason) && InTree(corpus, version) ==> conn.tx == Lost && !conn.locked
    ensures failure == Some(PooledHost) <==> pooled && !Blank(reason) && InTree(corpus, version)
    ensures pooled || Blank(reason) || !InTree(corpus, version) ==>
      !held && conn.log == old(conn.log) && conn.committed == old(conn.committed)
    ensures !held ==>
      && failure.Some?
      && (failure.value in {NoReason, NoSuchFile, PooledHost}
          || LockFails(failure.value, conn.log, |old(conn.log)|))
    ensures old(conn.log) <= conn.log
    ensures held && failure.Some? ==>
      RepairFails(corpus, version, failure.value, conn.atLock.Rows(), conn.log, |old(conn.log)|)
    ensures held ==>
      RunEnds(
        corpus, Verb.Repair(version), conn.atLock, conn.committed, conn.log[|old(conn.log)|..], failure.None?)
    ensures
      if held then LetGo(old(conn.unlocks), conn.unlocks, conn.closedAt) else conn.unlocks == old(conn.unlocks)
  {
    hide RepairEnds, Blank, IsTree, RepairFails, LockFails;
    held := false;
    if Blank(reason) {
      failure := Some(NoReason);
      return;
    }
    var at := 0;
    while at < |corpus| && corpus[at].version != version
      invariant at <= |corpus| && forall j :: 0 <= j < at ==> corpus[j].version != version
    {
      at := at + 1;
    }
    if at == |corpus| {
      failure := Some(NoSuchFile);
      return;
    }
    if pooled {
      conn.Close();
      failure := Some(PooledHost);
      return;
    }
    assert corpus[at] in corpus;
    var tries;
    ghost var waited;
    failure, tries, waited := AcquireLock(conn, RUNNER_LOCK_WAIT, RUNNER_LOCK_POLL_S);
    LockFailsForOthers(failure, conn.log, |old(conn.log)|);
    if failure.None? {
      held := true;
      ghost var start := conn.log;
      failure := RepairBody(conn, corpus, corpus[at]);
      ghost var ended := conn.log;
      if failure.None? && conn.tx != Idle {
        failure := Some(OpenBlock);
      }
      ReleaseLock(conn);
      if failure.Some? {
        RepairStillFails(
          corpus, version, failure.value, conn.atLock.Rows(), ended, |start|, conn.log, |old(conn.log)|);
        RepairFailsForItself(corpus, version, failure.value, conn.atLock.Rows(), conn.log, |old(conn.log)|);
      }
    }
    conn.Close();
  }

  lemma {:induction false} RepairFailsForItself(
    corpus: seq<Migration>, version: nat, refusal: Refusal, rows: Ledger, log: seq<Event>, from: nat)
    requires RepairFails(corpus, version, refusal, rows, log, from)
    ensures refusal !in {PooledHost, NoReason, NoSuchFile}
  {
  }
}
