// One database session as the runner drives it. Every statement, every probe
// and every wait may fail, and the connection may be lost with the last
// statement carried out or not. The session keeps a ghost transcript of what it
// was sent and what came back.

module Database {
  import opened Chars
  import opened Migrations

  // The server's own view of the session; `Lost` when there is no server left
  // to ask.
  datatype Tx = Idle | InTransaction | Aborted | Lost

  // How a statement came back: a lock waited on too long is told apart.
  datatype Reply = Done | LockTimeout | Failure

  datatype Answer = IsTrue | NotTrue | Error(lockTimeout: bool)

  datatype LockReply = Taken | Held | LockFailed

  datatype Change =
    | DoWork(effects: seq<Effect>)
    | CreateLedger
    | InsertRow(version: nat, row: Row)
    | UpdateRow(version: nat, row: Row)
    | RetireLedger

  // What the runner asks for itself.
  datatype Question =
    | Setting | LockHolder | TablePresent | Grant
    | Isolation | Owner | LegacyTable | TableLock | Layout

  // Whatever is sent on a session, with how it came back: a statement that writes,
  // one of a file's own transaction statements, a probe, a question of the
  // runner's, a read of the ledger, the client's own commit or rollback, a try
  // for the runner lock.
  datatype Event =
    | Ran(change: Change, reply: Reply)
    | Said(statement: Statement, reply: Reply)
    | Asked(probe: nat, answer: Answer)
    | Queried(question: Question, answer: Answer)
    | Looked(found: bool)
    | CommitSent(reply: Reply)
    | RolledBack(came: bool)
    | Tried(lock: LockReply)

  // What a change makes of a database; None where the server refuses it.
  function Changed(db: Db, change: Change): Option<Db> {
    match change
    case DoWork(effects) => Some(db.(effects := db.effects + effects))
    case CreateLedger => Some(db.(ledger := Some(db.Rows())))
    case InsertRow(version, row) =>
      if db.ledger.None? || version in db.ledger.value then None
      else Some(db.(ledger := Some(db.ledger.value[version := row])))
    case UpdateRow(version, row) =>
      if db.ledger.None? then None
      else if version !in db.ledger.value then Some(db)
      else Some(db.(ledger := Some(db.ledger.value[version := row])))
    case RetireLedger =>
      if db.ledger.None? || db.legacy.Some? then None
      else Some(db.(ledger := None, legacy := db.ledger))
  }

  class Session {
    var committed: Db
    var working: Db
    var tx: Tx
    var autocommit: bool
    var locked: bool
    // The committed state at the moment the runner lock was taken.
    ghost var atLock: Db
    ghost var log: seq<Event>
    // Where the transaction stood each time an unlock was sent, and when the
    // connection was closed.
    ghost var unlocks: seq<Tx>
    ghost var closedAt: Option<Tx>

    constructor (db: Db)
      ensures committed == db && tx == Idle && autocommit && !locked
      ensures log == [] && unlocks == [] && closedAt == None
    {
      committed, working, tx, autocommit, locked := db, db, Idle, true, false;
      atLock, log, unlocks, closedAt := db, [], [], None;
    }

    // What a statement run now would see.
    function View(): Db
      reads this
    {
      if tx == InTransaction then working else committed
    }

    // A change sent on this session. Inside a transaction it is kept only with
    // the transaction; alone, it commits by itself. Nothing is written without
    // the runner lock.
    method Execute(change: Change) returns (reply: Reply)
      requires locked
      modifies this`committed, this`working, this`tx, this`log
      ensures log == old(log) + [Ran(change, reply)]
      ensures reply == Done ==>
        && old(tx) in {Idle, InTransaction} && Changed(old(View()), change).Some?
        && View() == Changed(old(View()), change).value
        && (if old(tx) == Idle && autocommit then tx == Idle
            else tx == InTransaction && committed == old(committed))
      ensures reply == LockTimeout ==> tx != Lost
      ensures old(tx) == Idle && autocommit ==> tx in {Idle, Lost}
      ensures reply != Done ==>
        && tx != InTransaction
        && (tx == Idle ==> old(tx) == Idle && autocommit)
        && (|| committed == old(committed)
            || (&& tx == Lost && old(tx) == Idle && autocommit
                && Changed(old(committed), change) == Some(committed)))
    {
      if tx == Aborted || tx == Lost {
        log := log + [Ran(change, Failure)];
        return Failure;
      }
      var seen := View();
      var result := Changed(seen, change);
      var alone := tx == Idle && autocommit;
      var lost: bool, fails: bool, locks: bool, arrived: bool := *, *, *, *;
      if lost {
        if alone && arrived && result.Some? {
          committed := result.value;
        }
        tx, reply := Lost, Failure;
      } else if fails || result.None? {
        tx := if alone then Idle else Aborted;
        reply := if locks then LockTimeout else Failure;
      } else {
        if alone {
          committed := result.value;
        } else {
          working, tx := result.value, InTransaction;
        }
        reply := Done;
      }
      log := log + [Ran(change, reply)];
    }

    // An UPDATE of one row, and how many rows it met.
    method Update(version: nat, row: Row) returns (reply: Reply, rowcount: nat)
      requires locked && tx == Idle && autocommit
      modifies this`committed, this`working, this`tx, this`log
      ensures log == old(log) + [Ran(UpdateRow(version, row), reply)]
      ensures tx in {Idle, Lost}
      ensures rowcount == if version in old(committed).Rows() then 1 else 0
      ensures reply == Done ==>
        && tx == Idle && old(committed).ledger.Some?
        && Changed(old(committed), UpdateRow(version, row)) == Some(committed)
      ensures reply != Done ==>
        || committed == old(committed)
        || Changed(old(committed), UpdateRow(version, row)) == Some(committed)
    {
      rowcount := if version in committed.Rows() then 1 else 0;
      reply := Execute(UpdateRow(version, row));
    }

    // A transaction statement in a file's own text, sent under autocommit.
    method Say(s: Statement) returns (reply: Reply)
      requires locked && autocommit && s != Work
      modifies this`committed, this`working, this`tx, this`log
      ensures log == old(log) + [Said(s, reply)]
      ensures reply == Done && old(tx) == Idle ==>
        committed == old(committed)
        && if s == Begin then tx == InTransaction && working == committed else tx == Idle
      ensures reply == Done && old(tx) == InTransaction ==>
        match s
        case Begin => tx == InTransaction && working == old(working) && committed == old(committed)
        case Commit => tx == Idle && committed == old(working)
        case _ => tx == Idle && committed == old(committed)
      ensures old(tx) != InTransaction ==> committed == old(committed)
      ensures old(tx) == Lost ==> tx == Lost && reply == Failure
      ensures s == Rollback ==> committed == old(committed) && tx != InTransaction
      ensures s == Rollback ==> tx == if reply == Done then Idle else Lost
      ensures reply != Done ==>
        committed == old(committed) || (tx == Lost && s == Commit && committed == old(working))
    {
      var lost: bool, fails: bool, locks: bool, arrived: bool := *, *, *, *;
      reply := Done;
      if lost || tx == Lost {
        if s == Commit && tx == InTransaction && arrived {
          committed := working;
        }
        tx, reply := Lost, Failure;
      } else if s == Begin {
        if tx == Aborted || fails {
          tx := if tx == Idle then Idle else Aborted;
          reply := if locks then LockTimeout else Failure;
        } else if tx == Idle {
          working, tx := committed, InTransaction;
        }
      } else if s == Commit && tx == InTransaction {
        tx := Idle;
        if fails {
          reply := if locks then LockTimeout else Failure;
        } else {
          committed := working;
        }
      } else {
        tx := Idle;
      }
      log := log + [Said(s, reply)];
    }

    // One of a file's probes.
    method Ask(probe: nat) returns (answer: Answer)
      modifies this`working, this`tx, this`log
      ensures log == old(log) + [Asked(probe, answer)]
      ensures !answer.Error? ==>
        && old(tx) in {Idle, InTransaction}
        && View() == old(View())
        && tx == (if old(tx) == Idle && autocommit then Idle else InTransaction)
      ensures answer.Error? ==> tx != InTransaction && (tx == Idle ==> old(tx) == Idle && autocommit)
      ensures answer == Error(true) ==> tx != Lost
      ensures old(tx) == Idle && autocommit ==> tx in {Idle, Lost}
    {
      answer := Answered();
      log := log + [Asked(probe, answer)];
    }

    // A question of the runner's own.
    method Query(question: Question) returns (answer: Answer)
      modifies this`working, this`tx, this`log
      ensures log == old(log) + [Queried(question, answer)]
      ensures !answer.Error? ==>
        && old(tx) in {Idle, InTransaction}
        && View() == old(View())
        && tx == (if old(tx) == Idle && autocommit then Idle else InTransaction)
      ensures answer.Error? ==> tx != InTransaction && (tx == Idle ==> old(tx) == Idle && autocommit)
      ensures answer == Error(true) ==> tx != Lost
      ensures old(tx) == Idle && autocommit ==> tx in {Idle, Lost}
    {
      answer := Answered();
      log := log + [Queried(question, answer)];
    }

    // A query answered true, answered otherwise, or failed.
    method Answered() returns (answer: Answer)
      modifies this`working, this`tx
      ensures !answer.Error? ==>
        && old(tx) in {Idle, InTransaction}
        && View() == old(View())
        && tx == (if old(tx) == Idle && autocommit then Idle else InTransaction)
      ensures answer.Error? ==> tx != InTransaction && (tx == Idle ==> old(tx) == Idle && autocommit)
      ensures answer == Error(true) ==> tx != Lost
      ensures old(tx) == Idle && autocommit ==> tx in {Idle, Lost}
    {
      if tx == Aborted || tx == Lost {
        return Error(false);
      }
      var lost: bool, fails: bool, locks: bool, yes: bool := *, *, *, *;
      if lost {
        tx := Lost;
        return Error(false);
      }
      if fails {
        tx := if tx == Idle && autocommit then Idle else Aborted;
        return Error(locks);
      }
      if tx == Idle && !autocommit {
        working, tx := committed, InTransaction;
      }
      return if yes then IsTrue else NotTrue;
    }

    // The ledger's rows, or None when they could not be read.
    method ReadLedger() returns (rows: Option<Ledger>)
      modifies this`working, this`tx, this`log
      ensures log == old(log) + [Looked(rows.Some?)]
      ensures rows.Some? ==>
        && old(tx) in {Idle, InTransaction} && old(View()).ledger == rows
        && View() == old(View())
        && tx == (if old(tx) == Idle && autocommit then Idle else InTransaction)
      ensures rows.None? ==> tx != InTransaction && (tx == Idle ==> old(tx) == Idle && autocommit)
      ensures old(tx) == Idle && autocommit ==> tx in {Idle, Lost}
    {
      rows := None;
      if tx != Aborted && tx != Lost {
        var lost: bool, fails: bool := *, *;
        if lost {
          tx := Lost;
        } else if fails || View().ledger.None? {
          tx := if tx == Idle && autocommit then Idle else Aborted;
        } else {
          if tx == Idle && !autocommit {
            working, tx := committed, InTransaction;
          }
          rows := View().ledger;
        }
      }
      log := log + [Looked(rows.Some?)];
    }

    // The client's own commit; it sends nothing when nothing was begun.
    method CommitWork() returns (reply: Reply)
      requires locked && !autocommit && tx in {Idle, InTransaction}
      modifies this`committed, this`tx, this`log
      ensures if old(tx) == Idle then log == old(log) else log == old(log) + [CommitSent(reply)]
      ensures reply == Done ==>
        tx == Idle && committed == if old(tx) == InTransaction then old(working) else old(committed)
      ensures reply == LockTimeout ==> tx == Idle
      ensures reply != Done ==>
        && old(tx) == InTransaction && tx in {Idle, Lost}
        && (committed == old(committed) || (tx == Lost && committed == old(working)))
    {
      if tx == Idle {
        return Done;
      }
      var lost: bool, fails: bool, locks: bool, arrived: bool := *, *, *, *;
      if lost {
        if arrived {
          committed := working;
        }
        tx, reply := Lost, Failure;
      } else if fails {
        tx, reply := Idle, if locks then LockTimeout else Failure;
      } else {
        tx, committed, reply := Idle, working, Done;
      }
      log := log + [CommitSent(reply)];
    }

    // The client's own rollback. Under autocommit it believes nothing is open
    // and sends nothing, whatever a file's own text left open.
    method RollbackWork()
      modifies this`tx, this`log
      ensures if autocommit || old(tx) == Lost then tx == old(tx) else tx in {Idle, Lost}
      ensures if autocommit || old(tx) == Lost then log == old(log) else log == old(log) + [RolledBack(tx == Idle)]
    {
      if !autocommit && tx != Lost {
        var lost: bool := *;
        tx := if lost then Lost else Idle;
        log := log + [RolledBack(!lost)];
      }
    }

    method SetAutocommit(on: bool)
      modifies this`autocommit
      ensures autocommit == on
    {
      autocommit := on;
    }

    // One try for the runner lock, a statement of its own. While the lock is
    // another run's, the database changes under this one.
    method TryLock() returns (reply: LockReply)
      requires tx in {Idle, Lost} && autocommit && !locked
      modifies this`committed, this`tx, this`locked, this`atLock, this`log
      ensures log == old(log) + [Tried(reply)]
      ensures reply == Taken <==> locked
      ensures reply == Taken ==> atLock == committed
      ensures reply != LockFailed ==> tx == Idle
      ensures tx in {Idle, Lost}
    {
      committed := *;
      var lost: bool, fails: bool, free: bool := *, *, *;
      if lost || tx == Lost {
        tx, reply := Lost, LockFailed;
      } else if fails {
        reply := LockFailed;
      } else if free {
        locked, atLock, reply := true, committed, Taken;
      } else {
        reply := Held;
      }
      log := log + [Tried(reply)];
    }

    // The lock given back. The server refuses it inside an aborted block, and
    // inside an open one it would outlive a rollback, so no block may be open.
    method Unlock() returns (released: bool)
      requires tx == Idle
      modifies this`locked, this`tx, this`unlocks
      ensures unlocks == old(unlocks) + [Idle]
      ensures tx in {Idle, Lost} && (released ==> !locked)
    {
      unlocks := unlocks + [tx];
      var lost: bool, fails: bool := *, *;
      if lost || fails {
        tx := if lost then Lost else tx;
        return false;
      }
      released := locked;
      locked := false;
    }

    // Closing ends the session: the server rolls back what is open and frees
    // the lock.
    method Close()
      modifies this`tx, this`locked, this`closedAt
      ensures tx == Lost && !locked && closedAt == Some(old(tx))
    {
      closedAt := Some(tx);
      tx, locked := Lost, false;
    }
  }
}
