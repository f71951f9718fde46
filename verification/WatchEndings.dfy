// Which rows a watch is judged on, and when and how it ends, said of the
// readings and the turns themselves.

module WatchEndings {
  import opened Chars
  import opened JsonValues
  import opened Watch
  import opened WatchLaws

  // ----- the rows a reading is judged on -----

  // The last row that a reading before had for a scope and a key.
  function Earlier(watched: Watched, previous: Option<Reading>, scope: string, k: Key): Option<Row> {
    if previous.None? then None else LastRowOf(previous.value, watched.key, scope, k)
  }

  // A change that is judged: a row that is new, or that got worse.
  predicate IsJudged(watched: Watched, previous: Option<Reading>, scope: string, change: Change) {
    var was := Earlier(watched, previous, scope, watched.key(change.row));
    change.Added? || (change.Changed? && (was.None? || watched.worse(was.value, change.row)))
  }

  // All the changes printed, each with its scope.
  function Scoped(scope: string, changes: seq<Change>): seq<(string, Change)> {
    if changes == [] then [] else [(scope, changes[0])] + Scoped(scope, changes[1..])
  }

  function AllPrinted(sections: seq<Section>): seq<(string, Change)> {
    if sections == [] then [] else Scoped(sections[0].scope, sections[0].changes) + AllPrinted(sections[1..])
  }

  function JudgedOf(watched: Watched, previous: Option<Reading>, printed: seq<(string, Change)>): seq<Row> {
    if printed == [] then []
    else
      (if IsJudged(watched, previous, printed[0].0, printed[0].1) then [printed[0].1.row] else [])
      + JudgedOf(watched, previous, printed[1..])
  }

  lemma {:induction false} JudgedBoth(
    watched: Watched, previous: Option<Reading>, first: seq<(string, Change)>, second: seq<(string, Change)>)
    ensures
      JudgedOf(watched, previous, first + second) ==
      JudgedOf(watched, previous, first) + JudgedOf(watched, previous, second)
    decreases |first|
  {
    hide IsJudged;
    if first == [] {
      assert first + second == second;
    } else {
      assert (first + second)[1..] == first[1..] + second;
      JudgedBoth(watched, previous, first[1..], second);
    }
  }

  lemma {:induction false} EarlierIsKeyed(watched: Watched, previous: Option<Reading>, scope: string, k: Key)
    ensures Lookup(RowsOf(TableOf(previous, watched.key), scope), k) == Earlier(watched, previous, scope, k)
  {
    hide LastRowOf;
    if previous.Some? {
      KeyedIsTheLastRow(previous.value, watched.key, scope, k);
    }
  }

  lemma {:induction false} JudgedInASection(
    watched: Watched, previous: Option<Reading>, scope: string, changes: seq<Change>)
    ensures
      WorsenedIn(watched, RowsOf(TableOf(previous, watched.key), scope), changes) ==
      JudgedOf(watched, previous, Scoped(scope, changes))
  {
    hide TableOf, RowsOf, Lookup, Earlier;
    if changes != [] {
      EarlierIsKeyed(watched, previous, scope, watched.key(changes[0].row));
      JudgedInASection(watched, previous, scope, changes[1..]);
    }
  }

  // A reading is judged on the rows printed as new or as changed for the worse
  // than that reading's last row of the scope and key, each once, in print order.
  lemma {:induction false} JudgedAreTheWorse(watched: Watched, previous: Option<Reading>, sections: seq<Section>)
    ensures
      Worsened(watched, TableOf(previous, watched.key), sections) ==
      JudgedOf(watched, previous, AllPrinted(sections))
  {
    hide TableOf, RowsOf, WorsenedIn, Scoped;
    if sections != [] {
      var scope, changes := sections[0].scope, sections[0].changes;
      JudgedInASection(watched, previous, scope, changes);
      JudgedAreTheWorse(watched, previous, sections[1..]);
      JudgedBoth(watched, previous, Scoped(scope, changes), AllPrinted(sections[1..]));
    }
  }

  // ----- ... said of the two readings -----

  // A row that the later reading holds last for its scope and key, and that is
  // new there or got worse.
  predicate IsWorse(watched: Watched, previous: Option<Reading>, current: Reading, scope: string, row: Row) {
    var k := watched.key(row);
    var was := Earlier(watched, previous, scope, k);
    && LastRowOf(current, watched.key, scope, k) == Some(row)
    && (was.None? || (was.value != row && watched.worse(was.value, row)))
  }

  lemma {:induction false} OfIsScoped(changes: seq<Change>, key: Row -> Key, scope: string, k: Key, change: Change)
    ensures change in Of(changes, key, k) <==> (scope, change) in Scoped(scope, changes) && key(change.row) == k
  {
    if changes != [] {
      OfIsScoped(changes[1..], key, scope, k, change);
    }
  }

  lemma {:induction false} ScopeIsItsOwn(scope: string, changes: seq<Change>, item: (string, Change))
    requires item in Scoped(scope, changes)
    ensures item.0 == scope
  {
    if changes[0] != item.1 || item.0 != scope {
      ScopeIsItsOwn(scope, changes[1..], item);
    }
  }

  lemma {:induction false} OfAllIsPrinted(
    sections: seq<Section>, key: Row -> Key, scope: string, k: Key, change: Change)
    ensures
      change in OfAll(sections, key, scope, k) <==> (scope, change) in AllPrinted(sections) && key(change.row) == k
  {
    hide Of, Scoped;
    if sections != [] {
      OfIsScoped(sections[0].changes, key, scope, k, change);
      OfAllIsPrinted(sections[1..], key, scope, k, change);
      if (scope, change) in Scoped(sections[0].scope, sections[0].changes) {
        ScopeIsItsOwn(sections[0].scope, sections[0].changes, (scope, change));
      }
    }
  }

  lemma {:induction false} JudgedAmong(
    watched: Watched, previous: Option<Reading>, printed: seq<(string, Change)>, row: Row)
    ensures
      row in JudgedOf(watched, previous, printed) <==>
      exists item <- printed :: IsJudged(watched, previous, item.0, item.1) && item.1.row == row
  {
    hide IsJudged;
    if printed != [] {
      JudgedAmong(watched, previous, printed[1..], row);
      assert printed == [printed[0]] + printed[1..];
    }
  }

  // What the diff of two readings says of one change.
  lemma {:induction false} PrintedIsADifference(
    watched: Watched, previous: Option<Reading>, current: Reading, scope: string, change: Change)
    ensures
      var sections := Diff(TableOf(previous, watched.key), Keyed(current, watched.key));
      var k := watched.key(change.row);
      (scope, change) in AllPrinted(sections) <==>
      change in Difference(Earlier(watched, previous, scope, k), LastRowOf(current, watched.key, scope, k))
  {
    hide Diff, TableOf, Keyed, AllPrinted, OfAll, LastRowOf;
    var k := watched.key(change.row);
    OfAllIsPrinted(
      Diff(TableOf(previous, watched.key), Keyed(current, watched.key)), watched.key, scope, k, change);
    DiffNamesARowOnce(previous, current, watched.key, scope, k);
  }

  // The rows judged are those of the later reading that are new or got worse,
  // and no others.
  lemma {:induction false} JudgedRowsAreWorse(watched: Watched, previous: Option<Reading>, current: Reading, row: Row)
    ensures
      var table := TableOf(previous, watched.key);
      row in Worsened(watched, table, Diff(table, Keyed(current, watched.key))) <==>
      exists scope: string :: IsWorse(watched, previous, current, scope, row)
  {
    hide Diff, TableOf, Keyed, AllPrinted, Worsened, LastRowOf, Earlier, JudgedOf;
    var table := TableOf(previous, watched.key);
    var sections := Diff(table, Keyed(current, watched.key));
    JudgedAreTheWorse(watched, previous, sections);
    JudgedAmong(watched, previous, AllPrinted(sections), row);
    forall scope: string, change: Change | change.row == row
      ensures
        (scope, change) in AllPrinted(sections) && IsJudged(watched, previous, scope, change) ==>
        IsWorse(watched, previous, current, scope, row)
    {
      PrintedIsADifference(watched, previous, current, scope, change);
    }
    if scope: string :| IsWorse(watched, previous, current, scope, row) {
      var was := Earlier(watched, previous, scope, watched.key(row));
      var change := if was.None? then Added(row) else Changed(row);
      PrintedIsADifference(watched, previous, current, scope, change);
      var item := (scope, change);
      assert item in AllPrinted(sections) && IsJudged(watched, previous, item.0, item.1);
    }
  }

  // ----- when a watch ends, and how -----

  // The reading that the last answered turn gave.
  ghost function LastAnswer(turns: seq<Turn>): Option<Reading> {
    if turns == [] then None
    else if turns[|turns| - 1].Answered? then Some(turns[|turns| - 1].reading)
    else LastAnswer(turns[..|turns| - 1])
  }

  lemma {:induction false} LastIsLastAnswer(turns: seq<Turn>)
    ensures LastOf(ReadingsOf(turns)) == LastAnswer(turns)
    decreases |turns|
  {
    if turns != [] && !turns[|turns| - 1].Answered? {
      LastIsLastAnswer(turns[..|turns| - 1]);
    }
  }

  // A reading fails on its own rows when it is the first, and only where the
  // verb says so; a later one fails on the rows that are new or got worse.
  predicate Fails(watched: Watched, previous: Option<Reading>, current: Reading) {
    if previous.None? then watched.failedOnBaseline && watched.failed(Flatten(current))
    else
      watched.failed(
        JudgedOf(
          watched, previous,
          AllPrinted(Diff(TableOf(previous, watched.key), Keyed(current, watched.key)))))
  }

  predicate IsDone(watched: Watched, previous: Option<Reading>, current: Reading) {
    watched.done(if previous.None? then None else Some(Flatten(previous.value)), Flatten(current))
  }

  predicate IsLate(deadline: Option<real>, turn: Turn) {
    (turn.Answered? || turn.NoAnswer?) && deadline.Some? && deadline.value <= turn.elapsed
  }

  // The last four turns had no answer.
  predicate FourUnanswered(turns: seq<Turn>) {
    var n := |turns|;
    n >= 4 && turns[n - 4].NoAnswer? && turns[n - 3].NoAnswer? && turns[n - 2].NoAnswer? && turns[n - 1].NoAnswer?
  }

  lemma {:induction false} RunOfFour(turns: seq<Turn>)
    ensures UnansweredRun(turns) > 3 <==> FourUnanswered(turns)
  {
    var n := |turns|;
    if n >= 1 {
      assert UnansweredRun(turns) == if turns[n - 1].NoAnswer? then 1 + UnansweredRun(turns[..n - 1]) else 0;
    }
    if n >= 2 {
      var t := turns[..n - 1];
      assert UnansweredRun(t) == if turns[n - 2].NoAnswer? then 1 + UnansweredRun(t[..n - 2]) else 0;
    }
    if n >= 3 {
      var t := turns[..n - 1][..n - 2];
      assert UnansweredRun(t) == if turns[n - 3].NoAnswer? then 1 + UnansweredRun(t[..n - 3]) else 0;
    }
    if n >= 4 {
      var t := turns[..n - 1][..n - 2][..n - 3];
      assert UnansweredRun(t) == if turns[n - 4].NoAnswer? then 1 + UnansweredRun(t[..n - 4]) else 0;
    }
  }

  lemma {:induction false} ShownByTheLast(watched: Watched, turns: seq<Turn>)
    requires turns != [] && turns[|turns| - 1].Answered?
    ensures
      var previous, current := LastAnswer(turns[..|turns| - 1]), turns[|turns| - 1].reading;
      && ReadingsOf(turns) != []
      && ShowsFailure(watched, ReadingsOf(turns)) == Fails(watched, previous, current)
      && ShowsEnd(watched, ReadingsOf(turns)) == IsDone(watched, previous, current)
  {
    hide Diff, TableOf, Keyed, AllPrinted, Worsened, Flatten, JudgedOf, ShowsFailure, ShowsEnd;
    var last := |turns| - 1;
    var readings, current := ReadingsOf(turns[..last]), turns[last].reading;
    var previous := LastAnswer(turns[..last]);
    LastIsLastAnswer(turns[..last]);
    assert ReadingsOf(turns) == readings + [current];
    LastIsJudged(watched, readings, current);
    if previous.Some? {
      var table := TableOf(previous, watched.key);
      JudgedAreTheWorse(watched, previous, Diff(table, Keyed(current, watched.key)));
    }
  }

  // A watch goes on past a turn exactly when the turn was answered or not
  // answered, in time, and neither its reading nor a fourth read in a row
  // without an answer ends it.
  lemma {:induction false} WhenAWatchGoesOn(watched: Watched, turns: seq<Turn>, deadline: Option<real>)
    requires turns != []
    ensures
      var turn := turns[|turns| - 1];
      var previous := LastAnswer(turns[..|turns| - 1]);
      GoesOn(watched, turns, deadline) <==>
      && !turn.Refused? && !turn.Interrupted? && !IsLate(deadline, turn) && !FourUnanswered(turns)
      && (turn.Answered? ==>
            !Fails(watched, previous, turn.reading) && !IsDone(watched, previous, turn.reading))
  {
    hide Fails, IsDone, ShowsFailure, ShowsEnd, ReadingsOf;
    RunOfFour(turns);
    if turns[|turns| - 1].Answered? {
      ShownByTheLast(watched, turns);
    }
  }

  // Where it does not go on, its ending is the one the last turn gives: failure
  // before the verb's own end, and that before the deadline.
  lemma {:induction false} HowAWatchEnds(
    watched: Watched, turns: seq<Turn>, deadline: Option<real>, ending: Ending)
    requires turns != [] && !GoesOn(watched, turns, deadline)
    ensures
      var turn := turns[|turns| - 1];
      var previous := LastAnswer(turns[..|turns| - 1]);
      EndsSo(watched, turns, deadline, ending) <==>
      ending ==
      match turn
      case Refused => Rejected
      case Interrupted => Stopped
      case NoAnswer(_) => Unanswered
      case Answered(reading, _) =>
        if Fails(watched, previous, reading) then Failed
        else if IsDone(watched, previous, reading) then Done
        else TimedOut
  {
    hide Fails, IsDone, ShowsFailure, ShowsEnd, ReadingsOf;
    if turns[|turns| - 1].Answered? {
      ShownByTheLast(watched, turns);
    }
  }
}
