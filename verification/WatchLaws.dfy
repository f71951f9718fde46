// Replaying what a watch printed gives the rows of its last reading.

module WatchLaws {
  import opened Chars
  import opened JsonValues
  import opened Watch

  // ----- dictionaries -----

  predicate Distinct<K(==), V>(dict: Dict<K, V>) {
    dict == [] || (Lookup(dict[1..], dict[0].0).None? && Distinct(dict[1..]))
  }

  lemma {:induction false} PutLooksUp<K, V>(dict: Dict<K, V>, key: K, value: V, other: K)
    ensures Lookup(Put(dict, key, value), other) == if other == key then Some(value) else Lookup(dict, other)
  {
    if dict != [] && dict[0].0 != key {
      PutLooksUp(dict[1..], key, value, other);
      assert Put(dict, key, value)[1..] == Put(dict[1..], key, value);
    } else if dict != [] {
      assert Put(dict, key, value)[1..] == dict[1..];
    }
  }

  lemma {:induction false} PutKeepsDistinct<K, V>(dict: Dict<K, V>, key: K, value: V)
    requires Distinct(dict)
    ensures Distinct(Put(dict, key, value))
  {
    if dict != [] && dict[0].0 != key {
      PutKeepsDistinct(dict[1..], key, value);
      PutLooksUp(dict[1..], key, value, dict[0].0);
      assert Put(dict, key, value)[1..] == Put(dict[1..], key, value);
    } else if dict != [] {
      assert Put(dict, key, value)[1..] == dict[1..];
    }
  }

  lemma {:induction false} LookupIsThere<K, V>(dict: Dict<K, V>, key: K)
    ensures Lookup(dict, key).Some? ==> (key, Lookup(dict, key).value) in dict
  {
    if dict != [] && dict[0].0 != key {
      LookupIsThere(dict[1..], key);
    }
  }

  // ----- what a reading keys to -----

  predicate RowsFit(rows: Rows, key: Row -> Key) {
    Distinct(rows) && forall pair <- rows :: key(pair.1) == pair.0
  }

  predicate TableFits(table: Table, key: Row -> Key) {
    Distinct(table) && forall pair <- table :: RowsFit(pair.1, key)
  }

  lemma {:induction false} PutKeepsPairs<K, V>(dict: Dict<K, V>, key: K, value: V)
    ensures forall pair <- Put(dict, key, value) :: pair in dict || pair == (key, value)
  {
    if dict != [] && dict[0].0 != key {
      PutKeepsPairs(dict[1..], key, value);
    }
  }

  lemma {:induction false} PutRowsFit(rows: Rows, more: seq<Json>, key: Row -> Key)
    requires RowsFit(rows, key)
    ensures RowsFit(PutRows(rows, more, key), key)
    decreases |more|
  {
    if more != [] {
      var n := |more| - 1;
      PutRowsFit(rows, more[..n], key);
      if more[n].Object? {
        var before := PutRows(rows, more[..n], key);
        PutKeepsDistinct(before, key(more[n].fields), more[n].fields);
        PutKeepsPairs(before, key(more[n].fields), more[n].fields);
      }
    }
  }

  lemma {:induction false} KeyedFits(reading: Reading, key: Row -> Key)
    ensures TableFits(Keyed(reading, key), key)
    decreases |reading|
  {
    if reading != [] {
      var n := |reading| - 1;
      var table, entry := Keyed(reading[..n], key), reading[n];
      KeyedFits(reading[..n], key);
      LookupIsThere(table, entry.scope);
      var rows := RowsOf(table, entry.scope);
      PutRowsFit(rows, entry.rows, key);
      PutKeepsDistinct(table, entry.scope, PutRows(rows, entry.rows, key));
      PutKeepsPairs(table, entry.scope, PutRows(rows, entry.rows, key));
    }
  }

  // The row a keyed reading holds for a scope and a key.
  function RowAt(table: Table, scope: string, k: Key): Option<Row> {
    Lookup(RowsOf(table, scope), k)
  }

  // ... which is the last such row of the reading.
  function LastRow(rows: seq<Json>, key: Row -> Key, k: Key): Option<Row> {
    if rows == [] then None
    else
      var last := rows[|rows| - 1];
      if last.Object? && key(last.fields) == k then Some(last.fields)
      else LastRow(rows[..|rows| - 1], key, k)
  }

  function LastRowOf(reading: Reading, key: Row -> Key, scope: string, k: Key): Option<Row> {
    if reading == [] then None
    else
      var last, before := reading[|reading| - 1], reading[..|reading| - 1];
      var row := if last.scope == scope then LastRow(last.rows, key, k) else None;
      if row.Some? then row else LastRowOf(before, key, scope, k)
  }

  lemma {:induction false} PutRowsLookUp(rows: Rows, more: seq<Json>, key: Row -> Key, k: Key)
    ensures
      Lookup(PutRows(rows, more, key), k) ==
      if LastRow(more, key, k).Some? then LastRow(more, key, k) else Lookup(rows, k)
    decreases |more|
  {
    if more != [] {
      var n := |more| - 1;
      PutRowsLookUp(rows, more[..n], key, k);
      if more[n].Object? {
        PutLooksUp(PutRows(rows, more[..n], key), key(more[n].fields), more[n].fields, k);
      }
    }
  }

  lemma {:induction false} KeyedIsTheLastRow(reading: Reading, key: Row -> Key, scope: string, k: Key)
    ensures RowAt(Keyed(reading, key), scope, k) == LastRowOf(reading, key, scope, k)
    decreases |reading|
  {
    if reading != [] {
      var n := |reading| - 1;
      var table, entry := Keyed(reading[..n], key), reading[n];
      KeyedIsTheLastRow(reading[..n], key, scope, k);
      var rows := PutRows(RowsOf(table, entry.scope), entry.rows, key);
      PutLooksUp(table, entry.scope, rows, scope);
      PutRowsLookUp(RowsOf(table, entry.scope), entry.rows, key, k);
    }
  }

  // ----- replaying what was printed -----

  // A view rebuilt from the printed changes: rows by scope and key.
  type View = map<(string, Key), Row>

  function At(view: View, scope: string, k: Key): Option<Row> {
    if (scope, k) in view then Some(view[(scope, k)]) else None
  }

  function Apply(view: View, scope: string, change: Change, key: Row -> Key): View {
    var at := (scope, key(change.row));
    if change.Removed? then view - {at} else view[at := change.row]
  }

  function ApplyAll(view: View, scope: string, changes: seq<Change>, key: Row -> Key): View
    decreases |changes|
  {
    if changes == [] then view
    else ApplyAll(Apply(view, scope, changes[0], key), scope, changes[1..], key)
  }

  function Replay(view: View, sections: seq<Section>, key: Row -> Key): View
    decreases |sections|
  {
    if sections == [] then view
    else Replay(ApplyAll(view, sections[0].scope, sections[0].changes, key), sections[1..], key)
  }

  function ReplayAll(prints: seq<seq<Section>>, key: Row -> Key): View {
    if prints == [] then map[]
    else Replay(ReplayAll(prints[..|prints| - 1], key), prints[|prints| - 1], key)
  }

  lemma {:induction false} ApplyBoth(
    view: View, scope: string, first: seq<Change>, second: seq<Change>, key: Row -> Key)
    ensures
      ApplyAll(view, scope, first + second, key) ==
      ApplyAll(ApplyAll(view, scope, first, key), scope, second, key)
    decreases |first|
  {
    if first == [] {
      assert first + second == second;
    } else {
      assert (first + second)[1..] == first[1..] + second;
      ApplyBoth(Apply(view, scope, first[0], key), scope, first[1..], second, key);
    }
  }

  lemma {:induction false} ReplayBoth(view: View, first: seq<Section>, second: seq<Section>, key: Row -> Key)
    ensures Replay(view, first + second, key) == Replay(Replay(view, first, key), second, key)
    decreases |first|
  {
    if first == [] {
      assert first + second == second;
    } else {
      assert (first + second)[1..] == first[1..] + second;
      ReplayBoth(ApplyAll(view, first[0].scope, first[0].changes, key), first[1..], second, key);
    }
  }

  lemma {:induction false} FreshReplays(
    view: View, scope: string, past: Rows, rows: Rows, key: Row -> Key, other: string, k: Key)
    requires RowsFit(rows, key)
    ensures
      At(ApplyAll(view, scope, Fresh(past, rows), key), other, k) ==
      if other == scope && Lookup(rows, k).Some? && Lookup(rows, k) != Lookup(past, k) then Lookup(rows, k)
      else At(view, other, k)
    decreases |rows|
  {
    if rows != [] {
      var k0, row := rows[0].0, rows[0].1;
      assert rows[0] in rows && key(row) == k0;
      assert forall pair <- rows[1..] :: pair in rows;
      var earlier := Lookup(past, k0);
      var change := if earlier.None? then Added(row) else Changed(row);
      if earlier == Some(row) {
        assert Fresh(past, rows) == Fresh(past, rows[1..]);
        FreshReplays(view, scope, past, rows[1..], key, other, k);
      } else {
        assert Fresh(past, rows)[0] == change && Fresh(past, rows)[1..] == Fresh(past, rows[1..]);
        FreshReplays(Apply(view, scope, change, key), scope, past, rows[1..], key, other, k);
      }
    }
  }

  lemma {:induction false} GoneReplays(
    view: View, scope: string, past: Rows, rows: Rows, key: Row -> Key, other: string, k: Key)
    requires RowsFit(past, key)
    ensures
      At(ApplyAll(view, scope, Gone(past, rows), key), other, k) ==
      if other == scope && Lookup(past, k).Some? && Lookup(rows, k).None? then None
      else At(view, other, k)
    decreases |past|
  {
    if past != [] {
      var k0, row := past[0].0, past[0].1;
      assert past[0] in past && key(row) == k0;
      assert forall pair <- past[1..] :: pair in past;
      if Lookup(rows, k0).Some? {
        assert Gone(past, rows) == Gone(past[1..], rows);
        GoneReplays(view, scope, past[1..], rows, key, other, k);
      } else {
        assert Gone(past, rows)[0] == Removed(row) && Gone(past, rows)[1..] == Gone(past[1..], rows);
        hide Gone;
        GoneReplays(Apply(view, scope, Removed(row), key), scope, past[1..], rows, key, other, k);
      }
    }
  }

  lemma {:induction false} SectionReplays(
    view: View, scope: string, past: Rows, rows: Rows, key: Row -> Key, other: string, k: Key)
    requires RowsFit(past, key) && RowsFit(rows, key)
    requires other == scope ==> At(view, scope, k) == Lookup(past, k)
    ensures
      At(ApplyAll(view, scope, Fresh(past, rows) + Gone(past, rows), key), other, k) ==
      if other == scope then Lookup(rows, k) else At(view, other, k)
  {
    ApplyBoth(view, scope, Fresh(past, rows), Gone(past, rows), key);
    FreshReplays(view, scope, past, rows, key, other, k);
    GoneReplays(ApplyAll(view, scope, Fresh(past, rows), key), scope, past, rows, key, other, k);
  }

  lemma {:induction false} RowsOfFit(table: Table, scope: string, key: Row -> Key)
    requires TableFits(table, key)
    ensures RowsFit(RowsOf(table, scope), key)
  {
    LookupIsThere(table, scope);
  }

  lemma {:induction false} SectionsReplay(
    view: View, before: Table, after: Table, key: Row -> Key, scope: string, k: Key)
    requires TableFits(before, key) && TableFits(after, key)
    requires At(view, scope, k) == RowAt(before, scope, k)
    ensures
      At(Replay(view, SectionsOf(before, after), key), scope, k) ==
      if Lookup(after, scope).Some? then RowAt(after, scope, k) else At(view, scope, k)
    decreases |after|
  {
    if after != [] {
      var here, rows := after[0].0, after[0].1;
      var past := RowsOf(before, here);
      RowsOfFit(before, here, key);
      assert after[0] in after && forall pair <- after[1..] :: pair in after;
      SectionReplays(view, here, past, rows, key, scope, k);
      var next := ApplyAll(view, here, Fresh(past, rows) + Gone(past, rows), key);
      assert SectionsOf(before, after)[1..] == SectionsOf(before, after[1..]);
      if here == scope {
        Untouched(next, before, after[1..], key, scope, k);
      } else {
        SectionsReplay(next, before, after[1..], key, scope, k);
      }
    }
  }

  lemma {:induction false} Untouched(
    view: View, before: Table, after: Table, key: Row -> Key, scope: string, k: Key)
    requires TableFits(before, key) && TableFits(after, key) && Lookup(after, scope).None?
    ensures At(Replay(view, SectionsOf(before, after), key), scope, k) == At(view, scope, k)
    decreases |after|
  {
    if after != [] {
      var here, rows := after[0].0, after[0].1;
      var past := RowsOf(before, here);
      RowsOfFit(before, here, key);
      assert after[0] in after && forall pair <- after[1..] :: pair in after;
      SectionReplays(view, here, past, rows, key, scope, k);
      var next := ApplyAll(view, here, Fresh(past, rows) + Gone(past, rows), key);
      assert SectionsOf(before, after)[1..] == SectionsOf(before, after[1..]);
      Untouched(next, before, after[1..], key, scope, k);
    }
  }

  lemma {:induction false} GoneSectionsReplay(
    view: View, before: Table, after: Table, key: Row -> Key, scope: string, k: Key)
    requires TableFits(before, key)
    ensures
      At(Replay(view, GoneSections(before, after), key), scope, k) ==
      if RowAt(before, scope, k).Some? && Lookup(after, scope).None? then None else At(view, scope, k)
    decreases |before|
  {
    if before != [] {
      hide GoneSections, ApplyAll, Replay, At, RowAt;
      FirstGoneReplays(view, before, after, key);
      RowAtOnce(before, key, scope, k);
      var here, rows := before[0].0, before[0].1;
      if Lookup(after, here).Some? {
        GoneSectionsReplay(view, before[1..], after, key, scope, k);
      } else {
        GoneReplays(view, here, rows, [], key, scope, k);
        GoneSectionsReplay(ApplyAll(view, here, Gone(rows, []), key), before[1..], after, key, scope, k);
      }
    }
  }

  lemma {:induction false} FirstGoneReplays(view: View, before: Table, after: Table, key: Row -> Key)
    requires before != []
    ensures
      var here, rows := before[0].0, before[0].1;
      Replay(view, GoneSections(before, after), key) ==
      Replay(
        if Lookup(after, here).Some? then view else ApplyAll(view, here, Gone(rows, []), key),
        GoneSections(before[1..], after), key)
  {
    hide ApplyAll, Gone, Lookup;
    var here, rows := before[0].0, before[0].1;
    if Lookup(after, here).Some? {
      assert GoneSections(before, after) == GoneSections(before[1..], after);
    } else {
      assert GoneSections(before, after) == [Section(here, Gone(rows, []))] + GoneSections(before[1..], after);
      assert GoneSections(before, after)[1..] == GoneSections(before[1..], after);
    }
  }

  // The rows of a table, its first scope taken off.
  lemma {:induction false} RowAtOnce(table: Table, key: Row -> Key, scope: string, k: Key)
    requires table != [] && TableFits(table, key)
    ensures TableFits(table[1..], key) && RowsFit(table[0].1, key)
    ensures
      RowAt(table, scope, k) ==
      if scope == table[0].0 then Lookup(table[0].1, k) else RowAt(table[1..], scope, k)
    ensures scope == table[0].0 ==> RowAt(table[1..], scope, k).None?
  {
    hide RowsFit;
    assert table[0] in table && forall pair <- table[1..] :: pair in table;
  }

  ghost predicate Shows(view: View, table: Table) {
    forall scope, k :: At(view, scope, k) == RowAt(table, scope, k)
  }

  // Replaying one diff turns the view it started from into the one it read.
  lemma {:induction false} DiffReplays(view: View, before: Table, after: Table, key: Row -> Key)
    requires TableFits(before, key) && TableFits(after, key) && Shows(view, before)
    ensures Shows(Replay(view, Diff(before, after), key), after)
  {
    hide SectionsOf, GoneSections, Replay, TableFits, Lookup;
    forall scope, k
      ensures At(Replay(view, Diff(before, after), key), scope, k) == RowAt(after, scope, k)
    {
      ReplayBoth(view, SectionsOf(before, after), GoneSections(before, after), key);
      SectionsReplay(view, before, after, key, scope, k);
      GoneSectionsReplay(Replay(view, SectionsOf(before, after), key), before, after, key, scope, k);
      NothingThere<Key, Row>([], k);
    }
  }

  lemma {:induction false} NothingThere<K, V>(dict: Dict<K, V>, key: K)
    requires dict == []
    ensures Lookup(dict, key) == None
  {
  }

  // Over any readings, with unanswered reads between them, replaying every
  // change printed so far, from nothing, shows exactly the last reading's rows.
  lemma {:induction false} ReplayShowsTheLast(readings: seq<Reading>, key: Row -> Key)
    ensures Shows(ReplayAll(Printed(readings, key), key), TableOf(LastOf(readings), key))
    decreases |readings|
  {
    hide Keyed, Diff, Replay;
    if readings == [] {
      forall scope, k ensures At(map[], scope, k) == RowAt([], scope, k) {
      }
    } else {
      var n := |readings| - 1;
      var before := readings[..n];
      ReplayShowsTheLast(before, key);
      EveryTableFits(LastOf(before), key);
      KeyedFits(readings[n], key);
      DiffReplays(ReplayAll(Printed(before, key), key), TableOf(LastOf(before), key), Keyed(readings[n], key), key);
      assert Printed(readings, key)[..n] == Printed(before, key) by {
        PrintedOnce(before, key);
      }
      PrintedOnce(readings, key);
    }
  }

  lemma {:induction false} PrintedOnce(readings: seq<Reading>, key: Row -> Key)
    ensures |Printed(readings, key)| == |readings|
    decreases |readings|
  {
    if readings != [] {
      PrintedOnce(readings[..|readings| - 1], key);
    }
  }

  lemma {:induction false} EveryTableFits(reading: Option<Reading>, key: Row -> Key)
    ensures TableFits(TableOf(reading, key), key)
  {
    if reading.Some? {
      KeyedFits(reading.value, key);
    }
  }

  // ----- what one diff says of a row -----

  // The changes that a print holds for one scope and key.
  function Of(changes: seq<Change>, key: Row -> Key, k: Key): seq<Change> {
    if changes == [] then []
    else (if key(changes[0].row) == k then [changes[0]] else []) + Of(changes[1..], key, k)
  }

  function OfAll(sections: seq<Section>, key: Row -> Key, scope: string, k: Key): seq<Change> {
    if sections == [] then []
    else
      (if sections[0].scope == scope then Of(sections[0].changes, key, k) else [])
      + OfAll(sections[1..], key, scope, k)
  }

  // What there is to say of a row that was one thing and is another.
  function Difference(was: Option<Row>, now: Option<Row>): seq<Change> {
    if was == now then []
    else if was.None? then [Added(now.value)]
    else if now.None? then [Removed(was.value)]
    else [Changed(now.value)]
  }

  lemma {:induction false} OfBoth(first: seq<Change>, second: seq<Change>, key: Row -> Key, k: Key)
    ensures Of(first + second, key, k) == Of(first, key, k) + Of(second, key, k)
    decreases |first|
  {
    if first == [] {
      assert first + second == second;
    } else {
      assert (first + second)[1..] == first[1..] + second;
      OfBoth(first[1..], second, key, k);
      Carried(
        if key(first[0].row) == k then [first[0]] else [], Of(first[1..], key, k), Of(second, key, k));
    }
  }

  lemma {:induction false} OfAllBoth(
    first: seq<Section>, second: seq<Section>, key: Row -> Key, scope: string, k: Key)
    ensures OfAll(first + second, key, scope, k) == OfAll(first, key, scope, k) + OfAll(second, key, scope, k)
    decreases |first|
  {
    if first == [] {
      assert first + second == second;
    } else {
      assert (first + second)[1..] == first[1..] + second;
      OfAllBoth(first[1..], second, key, scope, k);
    }
  }

  lemma {:induction false} FreshOnce(past: Rows, rows: Rows, key: Row -> Key, k: Key)
    requires RowsFit(rows, key)
    ensures
      Of(Fresh(past, rows), key, k) ==
      if Lookup(rows, k).Some? then Difference(Lookup(past, k), Lookup(rows, k)) else []
    decreases |rows|
  {
    if rows == [] {
      NoChanges(past, rows);
    } else {
      hide Lookup, RowsFit, Fresh;
      FirstRow(rows, key, k);
      FreshOnce(past, rows[1..], key, k);
      FreshHead(past, rows);
      hide Of;
      var earlier := Lookup(past, rows[0].0);
      var change := if earlier.None? then Added(rows[0].1) else Changed(rows[0].1);
      if earlier != Some(rows[0].1) {
        OfHead(change, Fresh(past, rows[1..]), key, k);
      }
    }
  }

  lemma {:induction false} FirstRow(rows: Rows, key: Row -> Key, k: Key)
    requires rows != [] && RowsFit(rows, key)
    ensures RowsFit(rows[1..], key) && key(rows[0].1) == rows[0].0
    ensures Lookup(rows, k) == if rows[0].0 == k then Some(rows[0].1) else Lookup(rows[1..], k)
    ensures rows[0].0 == k ==> Lookup(rows[1..], k) == None
  {
    assert rows[0] in rows && forall pair <- rows[1..] :: pair in rows;
  }

  lemma {:induction false} FreshHead(past: Rows, rows: Rows)
    requires rows != []
    ensures
      var earlier := Lookup(past, rows[0].0);
      Fresh(past, rows) ==
      if earlier.None? then [Added(rows[0].1)] + Fresh(past, rows[1..])
      else if earlier.value != rows[0].1 then [Changed(rows[0].1)] + Fresh(past, rows[1..])
      else Fresh(past, rows[1..])
  {
    hide Lookup;
  }

  lemma {:induction false} OfHead(change: Change, rest: seq<Change>, key: Row -> Key, k: Key)
    ensures
      Of([change] + rest, key, k) == (if key(change.row) == k then [change] else []) + Of(rest, key, k)
  {
    assert ([change] + rest)[1..] == rest;
  }

  lemma {:induction false} GoneOnce(past: Rows, rows: Rows, key: Row -> Key, k: Key)
    requires RowsFit(past, key)
    ensures
      Of(Gone(past, rows), key, k) ==
      if Lookup(past, k).Some? && Lookup(rows, k).None? then [Removed(Lookup(past, k).value)] else []
    decreases |past|
  {
    if past != [] {
      assert past[0] in past && forall pair <- past[1..] :: pair in past;
      OneGone(past, rows, key, k);
      hide Gone, Of;
      GoneOnce(past[1..], rows, key, k);
    }
  }

  lemma {:induction false} OneGone(past: Rows, rows: Rows, key: Row -> Key, k: Key)
    requires past != [] && key(past[0].1) == past[0].0
    ensures
      Of(Gone(past, rows), key, k) ==
      if past[0].0 == k && Lookup(rows, k).None? then [Removed(past[0].1)] + Of(Gone(past[1..], rows), key, k)
      else Of(Gone(past[1..], rows), key, k)
  {
    hide Lookup;
    var rest := Gone(past[1..], rows);
    if Lookup(rows, past[0].0).Some? {
      assert Gone(past, rows) == rest;
    } else {
      assert Gone(past, rows) == [Removed(past[0].1)] + rest && Gone(past, rows)[1..] == rest;
    }
  }

  lemma {:induction false} SectionOnce(past: Rows, rows: Rows, key: Row -> Key, k: Key)
    requires RowsFit(past, key) && RowsFit(rows, key)
    ensures Of(Fresh(past, rows) + Gone(past, rows), key, k) == Difference(Lookup(past, k), Lookup(rows, k))
  {
    hide Of, Fresh, Gone;
    OfBoth(Fresh(past, rows), Gone(past, rows), key, k);
    FreshOnce(past, rows, key, k);
    GoneOnce(past, rows, key, k);
  }

  lemma {:induction false} SectionsOnce(before: Table, after: Table, key: Row -> Key, scope: string, k: Key)
    requires TableFits(before, key) && TableFits(after, key)
    ensures
      OfAll(SectionsOf(before, after), key, scope, k) ==
      if Lookup(after, scope).Some? then Difference(RowAt(before, scope, k), RowAt(after, scope, k)) else []
    decreases |after|
  {
    if after != [] {
      hide Fresh, Gone, RowsFit, TableFits, RowsOf, RowAt, Of, Distinct;
      var here, rows := after[0].0, after[0].1;
      var past := RowsOf(before, here);
      RowsOfFit(before, here, key);
      FirstRows(after, key, scope, k);
      NoScopeAfter(after, key);
      SectionOnce(past, rows, key, k);
      assert SectionsOf(before, after)[1..] == SectionsOf(before, after[1..]);
      SectionsOnce(before, after[1..], key, scope, k);
      RowsAreAt(before, here, k);
    }
  }

  lemma {:induction false} RowsAreAt(table: Table, scope: string, k: Key)
    ensures RowAt(table, scope, k) == Lookup(RowsOf(table, scope), k)
  {
  }

  lemma {:induction false} NoScopeAfter(table: Table, key: Row -> Key)
    requires table != [] && TableFits(table, key)
    ensures Lookup(table[1..], table[0].0) == None
  {
  }

  lemma {:induction false} FirstRows(table: Table, key: Row -> Key, scope: string, k: Key)
    requires table != [] && TableFits(table, key)
    ensures RowsFit(table[0].1, key) && TableFits(table[1..], key)
    ensures
      RowAt(table, scope, k) == if table[0].0 == scope then Lookup(table[0].1, k) else RowAt(table[1..], scope, k)
    ensures table[0].0 == scope ==> RowAt(table[1..], scope, k) == None
  {
    assert table[0] in table && forall pair <- table[1..] :: pair in table;
  }

  lemma {:induction false} AllGoneOnce(rows: Rows, key: Row -> Key, k: Key)
    requires RowsFit(rows, key)
    ensures Of(Gone(rows, []), key, k) == Difference(Lookup(rows, k), None)
  {
    hide Gone, Of;
    GoneOnce(rows, [], key, k);
  }

  lemma {:induction false} GoneSectionsOnce(before: Table, after: Table, key: Row -> Key, scope: string, k: Key)
    requires TableFits(before, key)
    ensures
      OfAll(GoneSections(before, after), key, scope, k) ==
      if Lookup(after, scope).None? then Difference(RowAt(before, scope, k), None) else []
    decreases |before|
  {
    hide Lookup, RowsFit, TableFits, Gone, Of, RowsOf;
    if before == [] {
      NoRows(before, scope, k);
    } else {
      var here, rows := before[0].0, before[0].1;
      FirstRows(before, key, scope, k);
      GoneSectionsOnce(before[1..], after, key, scope, k);
      AllGoneOnce(rows, key, k);
      if Lookup(after, here).Some? {
        assert GoneSections(before, after) == GoneSections(before[1..], after);
      } else {
        assert GoneSections(before, after)[1..] == GoneSections(before[1..], after);
      }
    }
  }

  lemma {:induction false} NoRows(table: Table, scope: string, k: Key)
    requires table == []
    ensures RowAt(table, scope, k) == None
  {
  }

  // A diff of two readings names a row at most once, and says of it exactly
  // what its last rows in the two readings differ by.
  lemma {:induction false} DiffNamesARowOnce(
    previous: Option<Reading>, current: Reading, key: Row -> Key, scope: string, k: Key)
    ensures
      OfAll(Diff(TableOf(previous, key), Keyed(current, key)), key, scope, k) ==
      Difference(
        if previous.None? then None else LastRowOf(previous.value, key, scope, k),
        LastRowOf(current, key, scope, k))
  {
    hide Keyed, SectionsOf, GoneSections, OfAll, LastRowOf;
    var before, after := TableOf(previous, key), Keyed(current, key);
    EveryTableFits(previous, key);
    KeyedFits(current, key);
    OfAllBoth(SectionsOf(before, after), GoneSections(before, after), key, scope, k);
    SectionsOnce(before, after, key, scope, k);
    GoneSectionsOnce(before, after, key, scope, k);
    if previous.Some? {
      KeyedIsTheLastRow(previous.value, key, scope, k);
    }
    KeyedIsTheLastRow(current, key, scope, k);
  }
}
