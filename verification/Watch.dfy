// `--watch`: a view read again and again, and only what changed printed.

module Watch {
  import opened Chars
  import opened JsonValues

  type Row = map<string, Json>
  type Key = seq<Json>

  // One entry of a reading: a workspace's rows. A row that is no object is skipped.
  datatype Entry = Entry(scope: string, rows: seq<Json>)

  type Reading = seq<Entry>

  datatype Change = Added(row: Row) | Changed(row: Row) | Removed(row: Row)

  datatype Section = Section(scope: string, changes: seq<Change>)

  // How a verb is watched. `failed` and `worse` judge rows; `done` ends the watch.
  datatype Watched = Watched(
    key: Row -> Key,
    failed: seq<Row> -> bool,
    done: (Option<seq<Row>>, seq<Row>) -> bool,
    failedOnBaseline: bool,
    worse: (Row, Row) -> bool)

  // ----- dictionaries that keep their order -----

  type Dict<K, V> = seq<(K, V)>

  function Lookup<K(==), V>(dict: Dict<K, V>, key: K): Option<V> {
    if dict == [] then None
    else if dict[0].0 == key then Some(dict[0].1)
    else Lookup(dict[1..], key)
  }

  // A key that is there keeps its place.
  function Put<K(==), V>(dict: Dict<K, V>, key: K, value: V): Dict<K, V> {
    if dict == [] then [(key, value)]
    else if dict[0].0 == key then [(key, value)] + dict[1..]
    else [dict[0]] + Put(dict[1..], key, value)
  }

  type Rows = Dict<Key, Row>
  type Table = Dict<string, Rows>

  function RowsOf(table: Table, scope: string): Rows {
    var rows := Lookup(table, scope);
    if rows.None? then [] else rows.value
  }

  // ----- the reading, keyed -----

  function PutRow(rows: Rows, row: Json, key: Row -> Key): Rows {
    if row.Object? then Put(rows, key(row.fields), row.fields) else rows
  }

  function PutRows(rows: Rows, more: seq<Json>, key: Row -> Key): Rows {
    if more == [] then rows else PutRow(PutRows(rows, more[..|more| - 1], key), more[|more| - 1], key)
  }

  function Keyed(reading: Reading, key: Row -> Key): Table {
    if reading == [] then []
    else
      var table, entry := Keyed(reading[..|reading| - 1], key), reading[|reading| - 1];
      Put(table, entry.scope, PutRows(RowsOf(table, entry.scope), entry.rows, key))
  }

  method KeyedBy(reading: Reading, key: Row -> Key) returns (table: Table)
    ensures table == Keyed(reading, key)
  {
    table := [];
    for n := 0 to |reading|
      invariant table == Keyed(reading[..n], key)
    {
      var entry := reading[n];
      var rows := RowsOf(table, entry.scope);
      for i := 0 to |entry.rows|
        invariant rows == PutRows(RowsOf(table, entry.scope), entry.rows[..i], key)
      {
        assert entry.rows[..i + 1][..i] == entry.rows[..i];
        if entry.rows[i].Object? {
          var row := entry.rows[i].fields;
          rows := Put(rows, key(row), row);
        }
      }
      assert entry.rows[..|entry.rows|] == entry.rows;
      assert reading[..n + 1][..n] == reading[..n];
      table := Put(table, entry.scope, rows);
    }
    assert reading[..|reading|] == reading;
  }

  // ----- the diff -----

  function Fresh(past: Rows, rows: Rows): seq<Change> {
    if rows == [] then []
    else
      var k, row := rows[0].0, rows[0].1;
      var earlier := Lookup(past, k);
      (if earlier.None? then [Added(row)] else if earlier.value != row then [Changed(row)] else [])
      + Fresh(past, rows[1..])
  }

  function Gone(past: Rows, rows: Rows): seq<Change> {
    if past == [] then []
    else (if Lookup(rows, past[0].0).None? then [Removed(past[0].1)] else []) + Gone(past[1..], rows)
  }

  function SectionsOf(before: Table, after: Table): seq<Section> {
    if after == [] then []
    else
      var scope, rows := after[0].0, after[0].1;
      var past := RowsOf(before, scope);
      [Section(scope, Fresh(past, rows) + Gone(past, rows))] + SectionsOf(before, after[1..])
  }

  function GoneSections(before: Table, after: Table): seq<Section> {
    if before == [] then []
    else
      (if Lookup(after, before[0].0).None? then [Section(before[0].0, Gone(before[0].1, []))] else [])
      + GoneSections(before[1..], after)
  }

  function Diff(before: Table, after: Table): seq<Section> {
    SectionsOf(before, after) + GoneSections(before, after)
  }

  function TableOf(reading: Option<Reading>, key: Row -> Key): Table {
    if reading.None? then [] else Keyed(reading.value, key)
  }

  lemma {:induction false} Carried<T>(done: seq<T>, step: seq<T>, rest: seq<T>)
    ensures done + (step + rest) == (done + step) + rest
  {
  }

  lemma {:induction false} FreshStep(past: Rows, rows: Rows, n: nat)
    requires n < |rows|
    ensures
      var earlier := Lookup(past, rows[n].0);
      Fresh(past, rows[n..]) ==
      (if earlier.None? then [Added(rows[n].1)] else if earlier.value != rows[n].1 then [Changed(rows[n].1)] else [])
      + Fresh(past, rows[n + 1..])
  {
    assert rows[n..][0] == rows[n] && rows[n..][1..] == rows[n + 1..];
    hide Lookup;
  }

  lemma {:induction false} GoneRowStep(past: Rows, rows: Rows, n: nat)
    requires n < |past|
    ensures
      Gone(past[n..], rows) ==
      (if Lookup(rows, past[n].0).None? then [Removed(past[n].1)] else []) + Gone(past[n + 1..], rows)
  {
    assert past[n..][0] == past[n] && past[n..][1..] == past[n + 1..];
    hide Lookup;
  }

  lemma {:induction false} NoChanges(past: Rows, rows: Rows)
    ensures past == [] ==> Gone(past, rows) == []
    ensures rows == [] ==> Fresh(past, rows) == []
  {
  }

  method ChangesOf(past: Rows, rows: Rows) returns (changes: seq<Change>)
    ensures changes == Fresh(past, rows) + Gone(past, rows)
  {
    hide *;
    changes := [];
    assert rows[0..] == rows && past[0..] == past;
    for n := 0 to |rows|
      invariant Fresh(past, rows) == changes + Fresh(past, rows[n..])
    {
      var k, row := rows[n].0, rows[n].1;
      var earlier := Lookup(past, k);
      var more := if earlier.None? then [Added(row)] else if earlier.value != row then [Changed(row)] else [];
      FreshStep(past, rows, n);
      Carried(changes, more, Fresh(past, rows[n + 1..]));
      changes := changes + more;
    }
    NoChanges(past, rows[|rows|..]);
    for n := 0 to |past|
      invariant Fresh(past, rows) + Gone(past, rows) == changes + Gone(past[n..], rows)
    {
      var more := if Lookup(rows, past[n].0).None? then [Removed(past[n].1)] else [];
      GoneRowStep(past, rows, n);
      Carried(changes, more, Gone(past[n + 1..], rows));
      changes := changes + more;
    }
    NoChanges(past[|past|..], rows);
  }

  lemma {:induction false} SectionStep(before: Table, after: Table, n: nat)
    requires n < |after|
    ensures
      var past := RowsOf(before, after[n].0);
      SectionsOf(before, after[n..]) ==
      [Section(after[n].0, Fresh(past, after[n].1) + Gone(past, after[n].1))] + SectionsOf(before, after[n + 1..])
  {
    assert after[n..][0] == after[n] && after[n..][1..] == after[n + 1..];
  }

  lemma {:induction false} GoneStep(before: Table, after: Table, n: nat)
    requires n < |before|
    ensures
      GoneSections(before[n..], after) ==
      (if Lookup(after, before[n].0).None? then [Section(before[n].0, Gone(before[n].1, []))] else [])
      + GoneSections(before[n + 1..], after)
  {
    assert before[n..][0] == before[n] && before[n..][1..] == before[n + 1..];
  }

  method DiffOf(previous: Option<Reading>, current: Reading, key: Row -> Key) returns (out: seq<Section>)
    ensures out == Diff(TableOf(previous, key), Keyed(current, key))
  {
    hide Keyed, SectionsOf, GoneSections, Gone, RowsOf, Lookup;
    var before: Table := [];
    if previous.Some? {
      before := KeyedBy(previous.value, key);
    }
    var after := KeyedBy(current, key);
    out := [];
    assert after[0..] == after && before[0..] == before;
    for n := 0 to |after|
      invariant SectionsOf(before, after) == out + SectionsOf(before, after[n..])
    {
      SectionStep(before, after, n);
      var changes := ChangesOf(RowsOf(before, after[n].0), after[n].1);
      var section := Section(after[n].0, changes);
      Carried(out, [section], SectionsOf(before, after[n + 1..]));
      out := out + [section];
    }
    NoSections(before, after[|after|..], after);
    for n := 0 to |before|
      invariant Diff(before, after) == out + GoneSections(before[n..], after)
    {
      GoneStep(before, after, n);
      if Lookup(after, before[n].0).None? {
        var changes := ChangesOf(before[n].1, []);
        assert Fresh(before[n].1, []) == [] && changes == Gone(before[n].1, []);
        var section := Section(before[n].0, changes);
        Carried(out, [section], GoneSections(before[n + 1..], after));
        out := out + [section];
      }
    }
    NoSections(before, before[|before|..], after);
  }

  lemma {:induction false} NoSections(before: Table, none: Table, after: Table)
    requires none == []
    ensures SectionsOf(before, none) == [] && GoneSections(none, after) == []
  {
  }

  // ----- the loop -----

  const TRANSIENT_RETRIES := 3

  // What one turn of the loop meets, and the time since the watch began.
  datatype Turn =
    | Answered(reading: Reading, elapsed: real)
    | NoAnswer(elapsed: real)
    | Refused
    | Interrupted

  // How a watch ends: at the verb's own end, on rows that failed, out of time,
  // on too many reads without an answer, on an answer that is an error, or
  // stopped by hand.
  datatype Ending = Done | Failed | TimedOut | Unanswered | Rejected | Stopped

  function Flatten(reading: Reading): seq<Row> {
    if reading == [] then [] else Objects(reading[0].rows) + Flatten(reading[1..])
  }

  function Objects(rows: seq<Json>): seq<Row> {
    if rows == [] then []
    else (if rows[0].Object? then [rows[0].fields] else []) + Objects(rows[1..])
  }

  predicate OutOfTime(deadline: Option<real>, elapsed: real) {
    deadline.Some? && elapsed >= deadline.value
  }

  // The rows a read is judged on: the added ones, and the changed ones that
  // got worse.
  function WorsenedIn(watched: Watched, past: Rows, changes: seq<Change>): seq<Row> {
    if changes == [] then []
    else
      (match changes[0]
       case Added(row) => [row]
       case Changed(row) =>
         var earlier := Lookup(past, watched.key(row));
         if earlier.None? || watched.worse(earlier.value, row) then [row] else []
       case Removed(_) => [])
      + WorsenedIn(watched, past, changes[1..])
  }

  function Worsened(watched: Watched, before: Table, sections: seq<Section>): seq<Row> {
    if sections == [] then []
    else
      WorsenedIn(watched, RowsOf(before, sections[0].scope), sections[0].changes)
      + Worsened(watched, before, sections[1..])
  }

  method WorsenedRows(watched: Watched, previous: Option<Reading>, sections: seq<Section>)
    returns (judged: seq<Row>)
    ensures judged == Worsened(watched, TableOf(previous, watched.key), sections)
  {
    hide Keyed, RowsOf;
    var before: Table := [];
    if previous.Some? {
      before := KeyedBy(previous.value, watched.key);
    }
    judged := [];
    for n := 0 to |sections|
      invariant Worsened(watched, before, sections) == judged + Worsened(watched, before, sections[n..])
    {
      assert sections[n..][0] == sections[n] && sections[n..][1..] == sections[n + 1..];
      var more := WorsenedOf(watched, RowsOf(before, sections[n].scope), sections[n].changes);
      Carried(judged, more, Worsened(watched, before, sections[n + 1..]));
      judged := judged + more;
    }
  }

  lemma {:induction false} WorsenedStep(watched: Watched, past: Rows, changes: seq<Change>, i: nat)
    requires i < |changes|
    ensures
      WorsenedIn(watched, past, changes[i..]) ==
      (match changes[i]
       case Added(row) => [row]
       case Changed(row) =>
         var earlier := Lookup(past, watched.key(row));
         if earlier.None? || watched.worse(earlier.value, row) then [row] else []
       case Removed(_) => [])
      + WorsenedIn(watched, past, changes[i + 1..])
  {
    hide Lookup;
    assert changes[i..][0] == changes[i] && changes[i..][1..] == changes[i + 1..];
  }

  method WorsenedOf(watched: Watched, past: Rows, changes: seq<Change>) returns (judged: seq<Row>)
    ensures judged == WorsenedIn(watched, past, changes)
  {
    hide Lookup, WorsenedIn;
    judged := [];
    assert changes[0..] == changes;
    for i := 0 to |changes|
      invariant WorsenedIn(watched, past, changes) == judged + WorsenedIn(watched, past, changes[i..])
    {
      var row := changes[i].row;
      var earlier := Lookup(past, watched.key(row));
      var more :=
        if changes[i].Added?
           || (changes[i].Changed? && (earlier.None? || watched.worse(earlier.value, row)))
        then [row] else [];
      WorsenedStep(watched, past, changes, i);
      Carried(judged, more, WorsenedIn(watched, past, changes[i + 1..]));
      judged := judged + more;
    }
    NoneWorsened(watched, past, changes[|changes|..]);
  }

  lemma {:induction false} NoneWorsened(watched: Watched, past: Rows, changes: seq<Change>)
    requires changes == []
    ensures WorsenedIn(watched, past, changes) == []
  {
  }

  // What a watch printed, what it read, and how it ended.
  ghost function ReadingsOf(turns: seq<Turn>): seq<Reading> {
    if turns == [] then []
    else
      ReadingsOf(turns[..|turns| - 1])
      + (if turns[|turns| - 1].Answered? then [turns[|turns| - 1].reading] else [])
  }

  // How many turns in a row, at the end, got no answer.
  ghost function UnansweredRun(turns: seq<Turn>): nat {
    if turns == [] || !turns[|turns| - 1].NoAnswer? then 0
    else 1 + UnansweredRun(turns[..|turns| - 1])
  }

  function LastOf(readings: seq<Reading>): Option<Reading> {
    if readings == [] then None else Some(readings[|readings| - 1])
  }

  // The diffs of a run of readings, each against the one before it.
  ghost function Printed(readings: seq<Reading>, key: Row -> Key): seq<seq<Section>> {
    if readings == [] then []
    else
      var before := readings[..|readings| - 1];
      Printed(before, key) + [Diff(TableOf(LastOf(before), key), Keyed(readings[|readings| - 1], key))]
  }

  // Whether the last of some readings shows the failure.
  ghost predicate ShowsFailure(watched: Watched, readings: seq<Reading>)
    requires readings != []
  {
    var before, current := LastOf(readings[..|readings| - 1]), readings[|readings| - 1];
    if before.None? then watched.failedOnBaseline && watched.failed(Flatten(current))
    else
      var table := TableOf(before, watched.key);
      watched.failed(Worsened(watched, table, Diff(table, Keyed(current, watched.key))))
  }

  ghost predicate ShowsEnd(watched: Watched, readings: seq<Reading>)
    requires readings != []
  {
    var before := LastOf(readings[..|readings| - 1]);
    watched.done(
      if before.None? then None else Some(Flatten(before.value)), Flatten(readings[|readings| - 1]))
  }

  // A turn after which the watch goes on.
  ghost predicate GoesOn(watched: Watched, turns: seq<Turn>, deadline: Option<real>)
    requires turns != []
  {
    match turns[|turns| - 1]
    case Answered(_, elapsed) =>
      !ShowsFailure(watched, ReadingsOf(turns)) && !ShowsEnd(watched, ReadingsOf(turns))
      && !OutOfTime(deadline, elapsed)
    case NoAnswer(elapsed) => UnansweredRun(turns) <= TRANSIENT_RETRIES && !OutOfTime(deadline, elapsed)
    case _ => false
  }

  ghost predicate EndsSo(watched: Watched, turns: seq<Turn>, deadline: Option<real>, ending: Ending)
    requires turns != []
  {
    match turns[|turns| - 1]
    case Answered(_, elapsed) =>
      var readings := ReadingsOf(turns);
      if ShowsFailure(watched, readings) then ending == Failed
      else if ShowsEnd(watched, readings) then ending == Done
      else OutOfTime(deadline, elapsed) && ending == TimedOut
    case NoAnswer(elapsed) =>
      ending == Unanswered && (UnansweredRun(turns) > TRANSIENT_RETRIES || OutOfTime(deadline, elapsed))
    case Refused => ending == Rejected
    case Interrupted => ending == Stopped
  }

  lemma {:induction false} NothingMet(turns: seq<Turn>, key: Row -> Key)
    requires turns == []
    ensures ReadingsOf(turns) == [] && UnansweredRun(turns) == 0 && Printed([], key) == []
  {
  }

  lemma {:induction false} TurnMet(turns: seq<Turn>, n: nat)
    requires n < |turns|
    ensures turns[..n + 1] != [] && turns[..n + 1][n] == turns[n]
    ensures
      ReadingsOf(turns[..n + 1]) ==
      if turns[n].Answered? then ReadingsOf(turns[..n]) + [turns[n].reading] else ReadingsOf(turns[..n])
    ensures UnansweredRun(turns[..n + 1]) == if turns[n].NoAnswer? then UnansweredRun(turns[..n]) + 1 else 0
  {
    assert turns[..n + 1][..n] == turns[..n];
  }

  lemma {:induction false} PrintedMore(readings: seq<Reading>, current: Reading, key: Row -> Key)
    ensures
      Printed(readings + [current], key) ==
      Printed(readings, key) + [Diff(TableOf(LastOf(readings), key), Keyed(current, key))]
  {
    hide Diff, Keyed;
    assert (readings + [current])[..|readings|] == readings;
  }

  lemma {:induction false} LastIsJudged(watched: Watched, readings: seq<Reading>, current: Reading)
    ensures
      var before := LastOf(readings);
      && ShowsFailure(watched, readings + [current]) ==
         (if before.None? then watched.failedOnBaseline && watched.failed(Flatten(current))
          else
            var table := TableOf(before, watched.key);
            watched.failed(Worsened(watched, table, Diff(table, Keyed(current, watched.key)))))
      && ShowsEnd(watched, readings + [current]) ==
         watched.done(if before.None? then None else Some(Flatten(before.value)), Flatten(current))
  {
    hide Diff, Keyed, Flatten, Worsened;
    assert (readings + [current])[..|readings|] == readings;
  }

  // One watch over the turns it meets; a stop by hand comes when they run out.
  // It stops at the first turn that ends it, having printed every reading's
  // diff against the reading before it.
  method Run(watched: Watched, turns: seq<Turn>, deadline: Option<real>)
    returns (met: nat, printed: seq<seq<Section>>, ending: Ending)
    ensures met <= |turns| && printed == Printed(ReadingsOf(turns[..met]), watched.key)
    ensures forall n :: 0 < n < met ==> GoesOn(watched, turns[..n], deadline)
    ensures
      if met > 0 && !GoesOn(watched, turns[..met], deadline) then EndsSo(watched, turns[..met], deadline, ending)
      else met == |turns| && ending == Stopped
  {
    hide Diff, Keyed, Flatten, Worsened, ReadingsOf, UnansweredRun, Printed, ShowsFailure, ShowsEnd;
    var previous: Option<Reading>, unanswered := None, 0;
    met, printed := 0, [];
    NothingMet(turns[..0], watched.key);
    while met < |turns|
      invariant met <= |turns|
      invariant previous == LastOf(ReadingsOf(turns[..met]))
      invariant unanswered == UnansweredRun(turns[..met])
      invariant printed == Printed(ReadingsOf(turns[..met]), watched.key)
      invariant forall n :: 0 < n <= met ==> GoesOn(watched, turns[..n], deadline)
    {
      var turn := turns[met];
      ghost var readings := ReadingsOf(turns[..met]);
      TurnMet(turns, met);
      met := met + 1;
      if turn.Refused? {
        return met, printed, Rejected;
      } else if turn.Interrupted? {
        return met, printed, Stopped;
      } else if turn.NoAnswer? {
        unanswered := unanswered + 1;
        if unanswered > TRANSIENT_RETRIES || OutOfTime(deadline, turn.elapsed) {
          return met, printed, Unanswered;
        }
        continue;
      }
      unanswered := 0;
      var current := turn.reading;
      var changes := DiffOf(previous, current, watched.key);
      printed := printed + [changes];
      PrintedMore(readings, current, watched.key);
      LastIsJudged(watched, readings, current);
      var judged := WorsenedRows(watched, previous, changes);
      var failure :=
        if previous.None? then watched.failedOnBaseline && watched.failed(Flatten(current))
        else watched.failed(judged);
      if failure {
        return met, printed, Failed;
      }
      var done := watched.done(
        if previous.None? then None else Some(Flatten(previous.value)), Flatten(current));
      if done {
        return met, printed, Done;
      }
      if OutOfTime(deadline, turn.elapsed) {
        return met, printed, TimedOut;
      }
      previous := Some(current);
    }
    ending := Stopped;
  }
}
