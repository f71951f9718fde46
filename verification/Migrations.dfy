// The records the migration runner works from: files, ledger rows, and what a
// file does to a database when nothing goes wrong.

module Migrations {
  import opened Chars
  import opened ExecutionMode

  // One piece of work a statement does, named by its file and its place in it.
  datatype Effect = Effect(version: nat, at: nat)

  datatype Statement = Work | Begin | Commit | Rollback

  datatype Migration = Migration(
    version: nat,
    name: string,
    checksum: string,
    statements: seq<Statement>,
    mode: Mode,
    reapplySafe: bool,
    postconditions: seq<nat>,
    manual: bool)

  datatype Status = Applied | Repaired | Adopted

  datatype Row = Row(checksum: string, status: Status)

  type Ledger = map<nat, Row>

  // The committed state: the ledger table, the retired table a conversion
  // leaves behind, and every piece of work, in the order it was committed.
  datatype Db = Db(ledger: Option<Ledger>, legacy: Option<Ledger>, effects: seq<Effect>) {
    function Rows(): Ledger {
      if ledger.Some? then ledger.value else map[]
    }
  }

  const INITIAL_VERSION: nat := 0

  ghost predicate Ordered(ms: seq<Migration>) {
    forall i, j :: 0 <= i < j < |ms| ==> ms[i].version < ms[j].version
  }

  // A tree is in version order, each version once. A wrapped file holds no
  // transaction control: one that does is not the wrapped file the runner
  // takes it for.
  ghost predicate IsTree(tree: seq<Migration>) {
    && Ordered(tree)
    && forall m <- tree :: PlainIfWrapped(m)
  }

  ghost predicate PlainIfWrapped(m: Migration) {
    m.mode == Wrapped ==> forall s <- m.statements :: s == Work
  }

  lemma {:induction false} OrderedCons(m: Migration, rest: seq<Migration>)
    requires Ordered(rest) && forall r <- rest :: m.version < r.version
    ensures Ordered([m] + rest)
  {
    var all := [m] + rest;
    forall i, j | 0 <= i < j < |all| ensures all[i].version < all[j].version {
      assert rest[j - 1] in rest;
      if i > 0 {
        assert rest[i - 1].version < rest[j - 1].version;
      }
    }
  }

  lemma {:induction false} OrderedTail(ms: seq<Migration>)
    requires ms != [] && Ordered(ms)
    ensures Ordered(ms[1..]) && forall r <- ms[1..] :: ms[0].version < r.version
  {
  }

  function Within(tree: seq<Migration>, bound: Option<nat>): (window: seq<Migration>)
    ensures forall m :: m in window <==> m in tree && (bound.None? || m.version <= bound.value)
  {
    if tree == [] then []
    else
      var rest := Within(tree[1..], bound);
      if bound.None? || tree[0].version <= bound.value then [tree[0]] + rest else rest
  }

  lemma {:induction false} WithinIsTree(tree: seq<Migration>, bound: Option<nat>)
    requires IsTree(tree)
    ensures IsTree(Within(tree, bound))
  {
    hide Ordered, PlainIfWrapped;
    if tree != [] {
      var rest := Within(tree[1..], bound);
      OrderedTail(tree);
      WithinIsTree(tree[1..], bound);
      OrderedCons(tree[0], rest);
    }
  }

  predicate InTree(tree: seq<Migration>, version: nat) {
    exists m <- tree :: m.version == version
  }

  // ----- playing a file's statements with nothing failing -----

  // Work committed so far, and the work of a block still open.
  datatype Play = Play(done: seq<Effect>, open: Option<seq<Effect>>)

  function PlayOne(p: Play, s: Statement, e: Effect): Play {
    match s
    case Work =>
      if p.open.Some? then p.(open := Some(p.open.value + [e])) else p.(done := p.done + [e])
    case Begin => if p.open.Some? then p else p.(open := Some(p.done))
    case Commit => if p.open.Some? then Play(p.open.value, None) else p
    case Rollback => p.(open := None)
  }

  // The first `n` statements of a file.
  function PlayFirst(m: Migration, n: nat, effects: seq<Effect>): Play
    requires n <= |m.statements|
  {
    if n == 0 then Play(effects, None)
    else PlayOne(PlayFirst(m, n - 1, effects), m.statements[n - 1], Effect(m.version, n - 1))
  }

  function PlayFile(m: Migration, effects: seq<Effect>): Play {
    PlayFirst(m, |m.statements|, effects)
  }

  // All of a file's work, when it is all `Work`.
  function WorkOf(m: Migration, n: nat): seq<Effect>
    requires n <= |m.statements|
  {
    if n == 0 then [] else WorkOf(m, n - 1) + [Effect(m.version, n - 1)]
  }

  lemma {:induction false} PlayPlainWork(m: Migration, n: nat, effects: seq<Effect>)
    requires n <= |m.statements| && forall s <- m.statements :: s == Work
    ensures PlayFirst(m, n, effects) == Play(effects + WorkOf(m, n), None)
    decreases n
  {
    if n > 0 {
      PlayPlainWork(m, n - 1, effects);
      assert m.statements[n - 1] in m.statements;
      assert effects + WorkOf(m, n - 1) + [Effect(m.version, n - 1)] == effects + WorkOf(m, n);
    } else {
      assert effects + [] == effects;
    }
  }

  // What a database holds once a file is applied and recorded.
  function Recorded(db: Db, m: Migration, status: Status): Db {
    db.(ledger := Some(db.Rows()[m.version := Row(m.checksum, status)]))
  }

  function Completed(db: Db, m: Migration): Db {
    Recorded(db.(effects := PlayFile(m, db.effects).done), m, Applied)
  }
}
