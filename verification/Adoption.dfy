// Entering a database into the ledger on evidence, and what the evidence must be.

module Adoption {
  import opened Chars
  import opened Migrations
  import opened Database
  import opened Transcripts
  import opened LedgerRules
  import opened Outcomes

  datatype ManifestFault = ListedTwice | ProbeAndAssertion | AssertedAboveFloor | NoProbe | Unpaired | Orphan

  datatype Manifest = Manifest(entries: map<nat, Evidence>) | Refused(fault: ManifestFault)

  // Evidence for every file of the window, and none for files the corpus does
  // not hold; an assertion is evidence only at or below the floor.
  ghost predicate Pairs(
    entries: map<nat, Evidence>, floor: int, window: seq<Migration>, corpus: seq<Migration>)
  {
    && (forall m <- window :: m.version in entries)
    && (forall v <- entries :: entries[v] == Asserted ==> v <= floor)
    && (forall v <- entries :: InTree(corpus, v))
  }

  function Listed(raw: seq<ManifestEntry>): set<nat> {
    set e <- raw :: e.version
  }

  // What an entry must be on its own: one kind of evidence, and an assertion
  // only at or below the floor.
  predicate IsSound(e: ManifestEntry, floor: int) {
    if e.asserted then e.probe.None? && e.version <= floor else e.probe.Some?
  }

  function EvidenceOf(e: ManifestEntry): Evidence
    requires e.asserted || e.probe.Some?
  {
    if e.asserted then Asserted else Probes([e.probe.value])
  }

  ghost predicate AllSound(raw: seq<ManifestEntry>, floor: int) {
    && (forall e <- raw :: IsSound(e, floor))
    && (forall i, j :: 0 <= i < j < |raw| ==> raw[i].version != raw[j].version)
  }

  // The manifest's own entries, each version once.
  method ReadEntries(floor: int, raw: seq<ManifestEntry>) returns (manifest: Manifest)
    ensures manifest.Manifest? <==> AllSound(raw, floor)
    ensures manifest.Manifest? ==>
      && manifest.entries.Keys == Listed(raw)
      && (forall e <- raw :: manifest.entries[e.version] == EvidenceOf(e))
  {
    hide AllSound, EntriesRead;
    var entries: map<nat, Evidence> := map[];
    assert EntriesRead(raw[..0], floor, entries) by {
      NothingRead(floor);
    }
    for k := 0 to |raw|
      invariant EntriesRead(raw[..k], floor, entries)
    {
      var e := raw[k];
      MustBeSound(raw, k, floor, entries);
      if e.version in entries {
        return Refused(ListedTwice);
      }
      if e.asserted && e.probe.Some? {
        return Refused(ProbeAndAssertion);
      }
      if e.asserted && e.version > floor {
        return Refused(AssertedAboveFloor);
      }
      if !e.asserted && e.probe.None? {
        return Refused(NoProbe);
      }
      OneMoreEntry(raw, k, floor, entries);
      entries := entries[e.version := if e.asserted then Asserted else Probes([e.probe.value])];
    }
    assert raw[..|raw|] == raw;
    EntriesAreRead(raw, floor, entries);
    manifest := Manifest(entries);
  }

  ghost predicate EntriesRead(raw: seq<ManifestEntry>, floor: int, entries: map<nat, Evidence>) {
    && AllSound(raw, floor)
    && entries.Keys == Listed(raw)
    && forall e <- raw :: e.version in entries && entries[e.version] == EvidenceOf(e)
  }

  lemma {:induction false} NothingRead(floor: int)
    ensures EntriesRead([], floor, map[])
  {
  }

  lemma {:induction false} EntriesAreRead(raw: seq<ManifestEntry>, floor: int, entries: map<nat, Evidence>)
    requires EntriesRead(raw, floor, entries)
    ensures AllSound(raw, floor) && entries.Keys == Listed(raw)
    ensures forall e <- raw :: entries[e.version] == EvidenceOf(e)
  {
  }

  // An entry that repeats a version, or is not sound, spoils the manifest.
  lemma {:induction false} MustBeSound(
    raw: seq<ManifestEntry>, k: nat, floor: int, entries: map<nat, Evidence>)
    requires k < |raw| && EntriesRead(raw[..k], floor, entries)
    ensures AllSound(raw, floor) ==> IsSound(raw[k], floor) && raw[k].version !in entries
  {
    if raw[k].version in entries {
      var e :| e in raw[..k] && e.version == raw[k].version;
      var i :| 0 <= i < k && raw[..k][i] == e;
      assert raw[i].version == raw[k].version;
    }
    assert raw[k] in raw;
  }

  lemma {:induction false} OneMoreEntry(
    raw: seq<ManifestEntry>, k: nat, floor: int, entries: map<nat, Evidence>)
    requires k < |raw| && EntriesRead(raw[..k], floor, entries)
    requires IsSound(raw[k], floor) && raw[k].version !in entries
    ensures EntriesRead(raw[..k + 1], floor, entries[raw[k].version := EvidenceOf(raw[k])])
  {
    hide IsSound, EvidenceOf;
    var e, before, now := raw[k], raw[..k], raw[..k + 1];
    assert now == before + [e];
    forall i, j | 0 <= i < j < |now| ensures now[i].version != now[j].version {
      assert now[i] in before;
      if j < k {
        assert before[i].version != before[j].version;
      }
    }
    assert forall f :: f in now <==> f in before || f == e;
  }

  // A file the manifest does not list is paired with its own postconditions.
  method PairWindow(listed: map<nat, Evidence>, window: seq<Migration>) returns (manifest: Manifest)
    requires Ordered(window)
    ensures manifest.Manifest? <==> forall m <- window :: m.version in listed || m.postconditions != []
    ensures manifest.Manifest? ==>
      && (forall v <- listed :: v in manifest.entries && manifest.entries[v] == listed[v])
      && (forall m <- window :: m.version in manifest.entries)
      && (forall m <- window | m.version !in listed :: manifest.entries[m.version] == Probes(m.postconditions))
      && (forall v <- manifest.entries | v !in listed :: InTree(window, v) && manifest.entries[v].Probes?)
  {
    var entries := listed;
    for k := 0 to |window|
      invariant forall v <- listed :: v in entries && entries[v] == listed[v]
      invariant forall j :: 0 <= j < k ==> window[j].version in entries
      invariant forall j :: 0 <= j < k && window[j].version !in listed ==>
        entries[window[j].version] == Probes(window[j].postconditions) && window[j].postconditions != []
      invariant forall v <- entries | v !in listed ::
        entries[v].Probes? && exists j :: 0 <= j < k && window[j].version == v
    {
      var m := window[k];
      assert m in window;
      if m.version !in entries {
        if m.postconditions == [] {
          return Refused(Unpaired);
        }
        entries := entries[m.version := Probes(m.postconditions)];
      }
      assert m.version !in listed ==> entries[m.version] == Probes(m.postconditions);
    }
    forall v | v in entries && v !in listed ensures InTree(window, v) {
      var j :| 0 <= j < |window| && window[j].version == v;
      assert window[j] in window;
    }
    manifest := Manifest(entries);
  }

  // What a manifest must be to be read at all: sound entries, evidence for every
  // file of the window, and no version the corpus lacks.
  ghost predicate Readable(
    raw: seq<ManifestEntry>, floor: int, window: seq<Migration>, corpus: seq<Migration>)
  {
    && AllSound(raw, floor)
    && (forall m <- window :: m.version in Listed(raw) || m.postconditions != [])
    && (forall v <- Listed(raw) :: InTree(corpus, v))
    && (forall m <- window :: InTree(corpus, m.version))
  }

  // What the manifest makes of its entries and of the files it does not list.
  ghost predicate Manifested(entries: map<nat, Evidence>, raw: seq<ManifestEntry>, window: seq<Migration>) {
    && (forall e <- raw ::
          && e.version in entries
          && if e.asserted then entries[e.version] == Asserted
             else e.probe.Some? && entries[e.version] == Probes([e.probe.value]))
    && (forall m <- window | forall e <- raw :: e.version != m.version ::
          m.version in entries && entries[m.version] == Probes(m.postconditions))
  }

  method LoadManifest(
    floor: int, raw: seq<ManifestEntry>, window: seq<Migration>, corpus: seq<Migration>)
    returns (manifest: Manifest)
    requires Ordered(window)
    ensures manifest.Manifest? <==> Readable(raw, floor, window, corpus)
    ensures manifest.Manifest? ==>
      Pairs(manifest.entries, floor, window, corpus) && Manifested(manifest.entries, raw, window)
  {
    var read := ReadEntries(floor, raw);
    if read.Refused? {
      return read;
    }
    var paired := PairWindow(read.entries, window);
    if paired.Refused? {
      return paired;
    }
    var orphaned := exists v <- paired.entries :: !InTree(corpus, v);
    EntriesInCorpus(read.entries, paired.entries, window, corpus);
    hide InTree;
    if orphaned {
      return Refused(Orphan);
    }
    assert forall v <- paired.entries :: paired.entries[v] == Asserted ==> v <= floor by {
      forall v | v in paired.entries && paired.entries[v] == Asserted ensures v <= floor {
        assert v in Listed(raw);
        var e :| e in raw && e.version == v;
        assert IsSound(e, floor);
      }
    }
    manifest := paired;
    EntriesManifested(manifest.entries, raw, floor, window);
  }

  lemma {:induction false} EntriesManifested(
    entries: map<nat, Evidence>, raw: seq<ManifestEntry>, floor: int, window: seq<Migration>)
    requires AllSound(raw, floor)
    requires forall e <- raw :: e.version in entries && entries[e.version] == EvidenceOf(e)
    requires forall m <- window | m.version !in Listed(raw) ::
      m.version in entries && entries[m.version] == Probes(m.postconditions)
    ensures Manifested(entries, raw, window)
  {
    assert forall e <- raw :: IsSound(e, floor);
  }

  lemma {:induction false} EntriesInCorpus(
    listed: map<nat, Evidence>, entries: map<nat, Evidence>, window: seq<Migration>, corpus: seq<Migration>)
    requires forall v <- listed :: v in entries
    requires forall m <- window :: m.version in entries
    requires forall v <- entries | v !in listed :: InTree(window, v)
    ensures (forall v <- entries :: InTree(corpus, v)) <==>
      (forall v <- listed :: InTree(corpus, v)) && (forall m <- window :: InTree(corpus, m.version))
  {
  }

  // ----- the plan -----

  type Results = map<nat, bool>

  // What the evidence must be before anything is recorded: every candidate
  // judged, an assertion taken as true, nothing false at or below the floor, and
  // no gap under a file that probes applied but one that is safe to reapply.
  ghost predicate Coherent(
    candidates: seq<Migration>, floor: int, entries: map<nat, Evidence>, results: Results)
  {
    && (forall m <- candidates :: m.version in results)
    && (forall m <- candidates ::
          m.version in entries && (entries[m.version] == Asserted ==> results[m.version]))
    && (forall m <- candidates :: m.version <= floor ==> results[m.version])
    && (forall m <- candidates, n <- candidates ::
          m.version < n.version && results[n.version] && !results[m.version] ==> m.reapplySafe)
  }

  function Proven(candidates: seq<Migration>, results: Results): (r: seq<Migration>)
    requires forall m <- candidates :: m.version in results
    ensures forall m :: m in r <==> m in candidates && results[m.version]
  {
    if candidates == [] then []
    else
      (if results[candidates[0].version] then [candidates[0]] else [])
      + Proven(candidates[1..], results)
  }

  function AdoptAll(db: Db, ms: seq<Migration>): Db {
    if ms == [] then db
    else Recorded(AdoptAll(db, ms[..|ms| - 1]), ms[|ms| - 1], Adopted)
  }

  // Every verdict is what the candidate's own evidence came to: an assertion, or
  // its probes as they were asked and answered.
  ghost predicate Answered(
    candidates: seq<Migration>, entries: map<nat, Evidence>, results: Results, said: seq<Event>)
  {
    forall m <- candidates ::
      && m.version in entries && m.version in results
      && Shown(entries[m.version], results[m.version], said)
  }

  // The candidates of `ledger` were judged, found coherent and recorded on `start`.
  ghost predicate Adopts(
    window: seq<Migration>, ledger: Ledger, floor: int, entries: map<nat, Evidence>, start: Db, after: Db,
    said: seq<Event>)
  {
    && Intact(ledger, window)
    && exists results ::
         && Coherent(Unrecorded(window, ledger), floor, entries, results)
         && Answered(Unrecorded(window, ledger), entries, results, said)
         && after == AdoptAll(start, Proven(Unrecorded(window, ledger), results))
  }

  lemma {:induction false} StillAnswered(
    candidates: seq<Migration>, entries: map<nat, Evidence>, results: Results,
    a: seq<Event>, b: seq<Event>, c: seq<Event>)
    requires Answered(candidates, entries, results, b)
    ensures Answered(candidates, entries, results, a + b + c)
  {
    hide Shown;
    forall m | m in candidates ensures Shown(entries[m.version], results[m.version], a + b + c) {
      StillShown(entries[m.version], results[m.version], a, b, c);
    }
  }

  ghost predicate AdoptEnds(
    corpus: seq<Migration>, window: seq<Migration>, floor: int, entries: map<nat, Evidence>,
    before: Db, after: Db, said: seq<Event>, ok: bool)
  {
    || (!ok && (after == before || after == WithTable(before)))
    || (&& !HoldsRetired(before.Rows(), corpus)
        && Adopts(window, before.Rows(), floor, entries, WithTable(before), after, said))
  }

  // A ledger of the retired chain alone: no version of the current chain, and
  // no row that carries a current file's checksum or name.
  ghost predicate OnlyRetired(ledger: Ledger, corpus: seq<Migration>) {
    && ledger != map[]
    && forall v <- ledger ::
         && 1 <= v <= RETIRED_CHAIN_LAST_VERSION
         && forall m <- corpus :: m.checksum != ledger[v].checksum && m.name != ledger[v].checksum
  }

  function Retired(db: Db): Db {
    Db(Some(map[]), db.ledger, db.effects)
  }

  ghost predicate ConvertEnds(
    corpus: seq<Migration>, floor: int, entries: map<nat, Evidence>, before: Db, after: Db,
    said: seq<Event>, ok: bool)
  {
    || (!ok && after == before)
    || (&& before.ledger.Some? && before.legacy.None? && OnlyRetired(before.ledger.value, corpus)
        && Adopts(corpus, map[], floor, entries, Retired(before), after, said))
  }

  ghost predicate RepairEnds(
    corpus: seq<Migration>, version: nat, before: Db, after: Db, ok: bool)
  {
    || (!ok && (after == before || after == WithTable(before)))
    || (&& !HoldsRetired(before.Rows(), corpus) && version in before.Rows()
        && exists m <- corpus :: m.version == version && after == Recorded(before, m, Repaired))
  }

  // ----- probing -----

  datatype PlanFault = ProbeErrored | LedgerUnread | LedgerNotIntact | RequiredButFalse | Gap

  // One file's evidence: an assertion, or every probe true.
  method Judge(conn: Session, evidence: Evidence) returns (holds: bool, failed: bool)
    requires conn.tx in {Idle, InTransaction} && (conn.autocommit ==> conn.tx == Idle)
    modifies conn`working, conn`tx, conn`log
    ensures old(conn.log) <= conn.log
    ensures !failed ==> Judged(evidence, conn.log[|old(conn.log)|..], holds)
    ensures !failed ==>
      && conn.View() == old(conn.View()) && (conn.autocommit ==> conn.tx == Idle)
      && conn.tx in {Idle, InTransaction} && (old(conn.tx) == InTransaction ==> conn.tx == InTransaction)
    ensures failed ==> conn.tx != InTransaction && (conn.autocommit ==> conn.tx in {Idle, Lost})
    ensures failed ==> SomeFailed(conn.log, |old(conn.log)|)
  {
    if evidence == Asserted {
      return true, false;
    }
    hide Judged, AllTrue;
    assert AllTrue(evidence.probes[..0]) == [];
    ghost var asked: seq<Event> := [];
    for k := 0 to |evidence.probes|
      invariant conn.log == old(conn.log) + asked && asked == AllTrue(evidence.probes[..k])
      invariant conn.View() == old(conn.View()) && (conn.autocommit ==> conn.tx == Idle)
      invariant conn.tx in {Idle, InTransaction}
      invariant old(conn.tx) == InTransaction ==> conn.tx == InTransaction
    {
      var answer := conn.Ask(evidence.probes[k]);
      if answer.Error? {
        assert Failed(conn.log[|conn.log| - 1]);
        return false, true;
      }
      AllTrueNext(evidence.probes, k);
      asked := asked + [Asked(evidence.probes[k], answer)];
      assert conn.log[|old(conn.log)|..] == asked;
      if answer == NotTrue {
        JudgedFalse(evidence.probes, k, asked);
        return false, false;
      }
    }
    assert evidence.probes[..|evidence.probes|] == evidence.probes;
    JudgedTrue(evidence.probes);
    return true, false;
  }

  lemma {:induction false} JudgedTrue(probes: seq<nat>)
    ensures Judged(Probes(probes), AllTrue(probes), true)
  {
  }

  lemma {:induction false} JudgedFalse(probes: seq<nat>, k: nat, asked: seq<Event>)
    requires k < |probes| && asked == AllTrue(probes[..k]) + [Asked(probes[k], NotTrue)]
    ensures Judged(Probes(probes), asked, false)
  {
  }

  method JudgeAll(conn: Session, candidates: seq<Migration>, entries: map<nat, Evidence>)
    returns (results: Results, failed: bool)
    requires conn.tx in {Idle, InTransaction} && (conn.autocommit ==> conn.tx == Idle)
    requires Ordered(candidates) && forall m <- candidates :: m.version in entries
    modifies conn`working, conn`tx, conn`log
    ensures old(conn.log) <= conn.log
    ensures !failed ==> Answered(candidates, entries, results, conn.log[|old(conn.log)|..])
    ensures !failed ==>
      && conn.View() == old(conn.View()) && (conn.autocommit ==> conn.tx == Idle)
      && conn.tx in {Idle, InTransaction} && (old(conn.tx) == InTransaction ==> conn.tx == InTransaction)
    ensures failed ==> conn.tx != InTransaction && (conn.autocommit ==> conn.tx in {Idle, Lost})
    ensures failed ==> SomeFailed(conn.log, |old(conn.log)|)
  {
    hide Shown, Judged;
    results, failed := map[], false;
    ghost var said: seq<Event> := [];
    for k := 0 to |candidates|
      invariant conn.log == old(conn.log) + said
      invariant conn.View() == old(conn.View()) && (conn.autocommit ==> conn.tx == Idle)
      invariant conn.tx in {Idle, InTransaction}
      invariant old(conn.tx) == InTransaction ==> conn.tx == InTransaction
      invariant Answered(candidates[..k], entries, results, said)
    {
      var m := candidates[k];
      assert m in candidates;
      ghost var before := conn.log;
      var holds;
      holds, failed := Judge(conn, entries[m.version]);
      if failed {
        return;
      }
      ghost var more := conn.log[|before|..];
      assert conn.log == old(conn.log) + (said + more);
      OneMoreAnswered(candidates, k, entries, results, said, more, holds);
      said := said + more;
      results := results[m.version := holds];
    }
    assert candidates[..|candidates|] == candidates;
    failed := false;
  }

  lemma {:induction false} OneMoreAnswered(
    candidates: seq<Migration>, k: nat, entries: map<nat, Evidence>, results: Results,
    said: seq<Event>, more: seq<Event>, holds: bool)
    requires Ordered(candidates) && k < |candidates| && candidates[k].version in entries
    requires Answered(candidates[..k], entries, results, said)
    requires Judged(entries[candidates[k].version], more, holds)
    ensures
      Answered(candidates[..k + 1], entries, results[candidates[k].version := holds], said + more)
  {
    hide Judged, Shown;
    JudgedIsShown(entries[candidates[k].version], more, holds);
    StillShown(entries[candidates[k].version], holds, said, more, []);
    StillAnswered(candidates[..k], entries, results, [], said, more);
    assert said + more + [] == said + more && [] + said + more == said + more;
    assert forall m :: m in candidates[..k + 1] <==> m in candidates[..k] || m == candidates[k];
  }

  lemma {:induction false} JudgedIsShown(evidence: Evidence, said: seq<Event>, holds: bool)
    requires Judged(evidence, said, holds)
    ensures Shown(evidence, holds, said)
  {
    hide Judged;
    assert said[0..|said|] == said;
  }

  // The two refusals a judged chain can still meet.
  method CheckChain(candidates: seq<Migration>, floor: int, results: Results) returns (fault: Option<PlanFault>)
    requires forall m <- candidates :: m.version in results
    ensures fault.None? <==>
      && (forall m <- candidates :: m.version <= floor ==> results[m.version])
      && (forall m <- candidates, n <- candidates ::
            m.version < n.version && results[n.version] && !results[m.version] ==> m.reapplySafe)
    ensures fault.Some? ==> fault.value in {RequiredButFalse, Gap}
    ensures fault == Some(RequiredButFalse) ==>
      exists m <- candidates :: m.version <= floor && !results[m.version]
    ensures fault == Some(Gap) ==>
      exists m <- candidates, n <- candidates ::
        m.version < n.version && results[n.version] && !results[m.version] && !m.reapplySafe
  {
    var head: nat := 0;
    for k := 0 to |candidates|
      invariant forall j :: 0 <= j < k ==> (candidates[j].version <= floor ==> results[candidates[j].version])
      invariant forall j :: 0 <= j < k && results[candidates[j].version] ==> candidates[j].version <= head
      invariant head == 0 || exists n <- candidates :: results[n.version] && n.version == head
    {
      var m := candidates[k];
      assert m in candidates;
      if m.version <= floor && !results[m.version] {
        return Some(RequiredButFalse);
      }
      if results[m.version] && m.version > head {
        head := m.version;
      }
    }
    for k := 0 to |candidates|
      invariant forall j :: 0 <= j < k ==>
        candidates[j].version < head && !results[candidates[j].version] ==> candidates[j].reapplySafe
    {
      var m := candidates[k];
      assert m in candidates;
      if m.version < head && !results[m.version] && !m.reapplySafe {
        return Some(Gap);
      }
    }
    return None;
  }

  // What a plan is given up for: a statement that did not come back, an unfit row,
  // a required file shown not to be there, or a gap the evidence shows.
  ghost predicate PlanDeserves(
    fault: PlanFault, window: seq<Migration>, ledger: Option<Ledger>, floor: int,
    entries: map<nat, Evidence>, log: seq<Event>, from: nat)
    requires from <= |log|
  {
    match fault
    case LedgerUnread => SomeFailed(log, from)
    case ProbeErrored => SomeFailed(log, from)
    case LedgerNotIntact => ledger.Some? && !Intact(ledger.value, window)
    case RequiredButFalse =>
      ledger.Some? &&
      exists m <- Unrecorded(window, ledger.value) ::
        m.version <= floor && m.version in entries && Shown(entries[m.version], false, log[from..])
    case Gap =>
      ledger.Some? &&
      exists m <- Unrecorded(window, ledger.value), n <- Unrecorded(window, ledger.value) ::
        && m.version < n.version && !m.reapplySafe && m.version in entries && n.version in entries
        && Shown(entries[m.version], false, log[from..]) && Shown(entries[n.version], true, log[from..])
  }

  // Probe the chain on the caller's session, and say what to record.
  method AdoptionPlan(
    conn: Session, window: seq<Migration>, floor: int, entries: map<nat, Evidence>)
    returns (toRecord: seq<Migration>, fault: Option<PlanFault>, ghost results: Results)
    requires conn.tx in {Idle, InTransaction} && (conn.autocommit ==> conn.tx == Idle)
    requires IsTree(window) && forall m <- window :: m.version in entries
    modifies conn`working, conn`tx, conn`log
    ensures old(conn.log) <= conn.log
    ensures fault.None? ==>
      && conn.View() == old(conn.View()) && old(conn.View()).ledger.Some?
      && (conn.autocommit ==> conn.tx == Idle) && conn.tx in {Idle, InTransaction}
      && (old(conn.tx) == InTransaction ==> conn.tx == InTransaction)
      && var ledger := old(conn.View()).Rows();
         && Intact(ledger, window)
         && Coherent(Unrecorded(window, ledger), floor, entries, results)
         && Answered(Unrecorded(window, ledger), entries, results, conn.log[|old(conn.log)|..])
         && toRecord == Proven(Unrecorded(window, ledger), results)
    ensures fault.Some? ==>
      PlanDeserves(
        fault.value, window, old(conn.View()).ledger, floor, entries, conn.log, |old(conn.log)|)
    ensures conn.autocommit ==> conn.tx in {Idle, Lost}
  {
    hide Intact, Fits, HoldsRetired, Answered, PlanDeserves, Coherent, SomeFailed;
    toRecord, results := [], map[];
    var rows := conn.ReadLedger();
    ghost var asked := conn.log;
    if rows.None? {
      fault := Some(LedgerUnread);
      NotRead(fault.value, window, old(conn.View()).ledger, floor, entries, conn.log, |old(conn.log)|);
      return;
    }
    var issues := LedgerDiscrepancies(rows.value, window);
    if issues != [] {
      fault := Some(LedgerNotIntact);
      UnfitRow(window, rows.value, floor, entries, conn.log, |old(conn.log)|);
      return;
    }
    toRecord, fault, results := JudgeChain(conn, window, rows.value, floor, entries);
    if fault.Some? {
      PlanStillDeserves(
        fault.value, window, rows, floor, entries, conn.log, |asked|, conn.log, |old(conn.log)|);
    } else {
      StillAnswered(
        Unrecorded(window, rows.value), entries, results, [Looked(true)], conn.log[|asked|..], []);
      assert conn.log[|old(conn.log)|..] == [Looked(true)] + conn.log[|asked|..] + [];
    }
  }

  // Judge what the ledger lacks, and look at the chain that makes.
  method JudgeChain(
    conn: Session, window: seq<Migration>, ledger: Ledger, floor: int, entries: map<nat, Evidence>)
    returns (toRecord: seq<Migration>, fault: Option<PlanFault>, ghost results: Results)
    requires conn.tx in {Idle, InTransaction} && (conn.autocommit ==> conn.tx == Idle)
    requires IsTree(window) && forall m <- window :: m.version in entries
    modifies conn`working, conn`tx, conn`log
    ensures old(conn.log) <= conn.log
    ensures fault.None? ==>
      && conn.View() == old(conn.View())
      && (conn.autocommit ==> conn.tx == Idle) && conn.tx in {Idle, InTransaction}
      && (old(conn.tx) == InTransaction ==> conn.tx == InTransaction)
      && Coherent(Unrecorded(window, ledger), floor, entries, results)
      && Answered(Unrecorded(window, ledger), entries, results, conn.log[|old(conn.log)|..])
      && toRecord == Proven(Unrecorded(window, ledger), results)
    ensures fault.Some? ==>
      PlanDeserves(fault.value, window, Some(ledger), floor, entries, conn.log, |old(conn.log)|)
    ensures conn.autocommit ==> conn.tx in {Idle, Lost}
  {
    hide Answered, PlanDeserves, Coherent, SomeFailed;
    toRecord, results := [], map[];
    var candidates := Unrecorded(window, ledger);
    UnrecordedIsTree(window, ledger);
    var judged, failed := JudgeAll(conn, candidates, entries);
    if failed {
      fault := Some(ProbeErrored);
      NotRead(fault.value, window, Some(ledger), floor, entries, conn.log, |old(conn.log)|);
      return;
    }
    results := judged;
    AnsweredResults(candidates, entries, judged, conn.log[|old(conn.log)|..]);
    fault := CheckChain(candidates, floor, judged);
    if fault.Some? {
      FaultDeserved(fault.value, window, ledger, floor, entries, judged, conn.log, |old(conn.log)|);
      return;
    }
    ChainIsCoherent(candidates, floor, entries, judged, conn.log[|old(conn.log)|..]);
    toRecord := Proven(candidates, judged);
  }

  lemma {:induction false} ShownLater(
    evidence: Evidence, holds: bool, log: seq<Event>, later: nat, more: seq<Event>, from: nat)
    requires from <= later <= |log| && log <= more && Shown(evidence, holds, log[later..])
    ensures Shown(evidence, holds, more[from..])
  {
    hide Shown;
    StillShown(evidence, holds, log[from..later], log[later..], more[|log|..]);
    assert more[from..] == log[from..later] + log[later..] + more[|log|..];
  }

  lemma {:induction false} PlanStillDeserves(
    fault: PlanFault, window: seq<Migration>, ledger: Option<Ledger>, floor: int, entries: map<nat, Evidence>,
    log: seq<Event>, later: nat, more: seq<Event>, from: nat)
    requires from <= later <= |log| && log <= more
    requires PlanDeserves(fault, window, ledger, floor, entries, log, later)
    ensures PlanDeserves(fault, window, ledger, floor, entries, more, from)
  {
    SomeStillFailed(log, later, more, from);
    hide SomeFailed, SomeTimedOut, Intact, Shown, Unrecorded;
    match fault {
      case RequiredButFalse =>
        var m :| m in Unrecorded(window, ledger.value)
          && m.version <= floor && m.version in entries && Shown(entries[m.version], false, log[later..]);
        ShownLater(entries[m.version], false, log, later, more, from);
      case Gap =>
        var m, n :| m in Unrecorded(window, ledger.value) && n in Unrecorded(window, ledger.value)
          && m.version < n.version && !m.reapplySafe && m.version in entries && n.version in entries
          && Shown(entries[m.version], false, log[later..]) && Shown(entries[n.version], true, log[later..]);
        ShownLater(entries[m.version], false, log, later, more, from);
        ShownLater(entries[n.version], true, log, later, more, from);
      case _ =>
    }
  }

  lemma {:induction false} NotRead(
    fault: PlanFault, window: seq<Migration>, ledger: Option<Ledger>, floor: int,
    entries: map<nat, Evidence>, log: seq<Event>, from: nat)
    requires from <= |log| && fault in {LedgerUnread, ProbeErrored}
    requires SomeFailed(log, from) || (from < |log| && Failed(log[|log| - 1]))
    ensures PlanDeserves(fault, window, ledger, floor, entries, log, from)
  {
  }

  lemma {:induction false} UnfitRow(
    window: seq<Migration>, ledger: Ledger, floor: int, entries: map<nat, Evidence>, log: seq<Event>, from: nat)
    requires from <= |log| && !Intact(ledger, window)
    ensures PlanDeserves(LedgerNotIntact, window, Some(ledger), floor, entries, log, from)
  {
    hide Intact;
  }

  lemma {:induction false} ChainIsCoherent(
    candidates: seq<Migration>, floor: int, entries: map<nat, Evidence>, results: Results, said: seq<Event>)
    requires Answered(candidates, entries, results, said)
    requires forall m <- candidates :: m.version <= floor ==> results[m.version]
    requires forall m <- candidates, n <- candidates ::
      m.version < n.version && results[n.version] && !results[m.version] ==> m.reapplySafe
    ensures Coherent(candidates, floor, entries, results)
  {
    AnsweredResults(candidates, entries, results, said);
    hide Shown;
  }

  lemma {:induction false} FaultDeserved(
    fault: PlanFault, window: seq<Migration>, ledger: Ledger, floor: int,
    entries: map<nat, Evidence>, results: Results, log: seq<Event>, from: nat)
    requires from <= |log| && Answered(Unrecorded(window, ledger), entries, results, log[from..])
    requires fault in {RequiredButFalse, Gap}
    requires fault == RequiredButFalse ==>
      exists m <- Unrecorded(window, ledger) :: m.version <= floor && !results[m.version]
    requires fault == Gap ==>
      exists m <- Unrecorded(window, ledger), n <- Unrecorded(window, ledger) ::
        m.version < n.version && results[n.version] && !results[m.version] && !m.reapplySafe
    ensures PlanDeserves(fault, window, Some(ledger), floor, entries, log, from)
  {
    hide Shown, Unrecorded;
  }

  // An assertion is taken as true.
  lemma {:induction false} AnsweredResults(
    candidates: seq<Migration>, entries: map<nat, Evidence>, results: Results, said: seq<Event>)
    requires Answered(candidates, entries, results, said)
    ensures forall m <- candidates ::
      m.version in results && (entries[m.version] == Asserted ==> results[m.version])
  {
  }

  lemma {:induction false} UnrecordedIsTree(window: seq<Migration>, ledger: Ledger)
    requires IsTree(window)
    ensures IsTree(Unrecorded(window, ledger))
  {
    hide Ordered, PlainIfWrapped;
    if window != [] {
      var rest := Unrecorded(window[1..], ledger);
      OrderedTail(window);
      UnrecordedIsTree(window[1..], ledger);
      OrderedCons(window[0], rest);
      assert Unrecorded(window, ledger) ==
        if window[0].version in ledger then rest else [window[0]] + rest;
    }
  }
}
