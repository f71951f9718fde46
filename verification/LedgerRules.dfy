// What the runner's verbs ask of a ledger before they write to it.

module LedgerRules {
  import opened Migrations

  const RETIRED_CHAIN_LAST_VERSION: nat := 149

  // The two retired files whose versions the current chain uses again.
  const RETIRED_COLLIDING_CHECKSUMS: map<nat, string> := map[
    1 := "f75f8a5b999673786d5bc79fca214a6bc7cc7360104fc6ab7703d440f03767c1",
    2 := "8e2d5502c1f1ba613c598982824f9588d94f8a3a7fc167df36f310d8cfc136bc"
  ]

  const REPLACEMENT_CORPUS: set<string> := {
    "000_initial.sql", "001_catalog_text.sql", "002_drop_archive_snapshots.sql"
  }

  predicate Fits(tree: seq<Migration>, version: nat, row: Row) {
    exists m <- tree :: m.version == version && m.checksum == row.checksum
  }

  predicate HasRetiredChecksum(version: nat, checksum: string) {
    version in RETIRED_COLLIDING_CHECKSUMS && RETIRED_COLLIDING_CHECKSUMS[version] == checksum
  }

  // Retired or mixed history: rows of the old chain in the new chain's ledger.
  predicate HoldsRetired(ledger: Ledger, tree: seq<Migration>) {
    && ledger != map[]
    && InTree(tree, INITIAL_VERSION)
    && (|| (exists v <- ledger :: HasRetiredChecksum(v, ledger[v].checksum))
        || (&& (forall name <- REPLACEMENT_CORPUS :: exists m <- tree :: m.name == name)
            && INITIAL_VERSION !in ledger
            && (|| (exists v <- ledger :: !InTree(tree, v))
                || (exists v <- ledger :: exists m <- tree ::
                      m.version == v && m.checksum != ledger[v].checksum))))
  }

  // Every recorded version is still a file of the tree, with its checksum.
  predicate Intact(ledger: Ledger, tree: seq<Migration>) {
    !HoldsRetired(ledger, tree) && forall v <- ledger :: Fits(tree, v, ledger[v])
  }

  predicate BelowHead(ledger: Ledger, version: nat) {
    exists v <- ledger :: version < v
  }

  lemma {:induction false} LeastOf(vs: set<nat>) returns (least: nat)
    requires vs != {}
    ensures least in vs && forall v <- vs :: least <= v
    decreases |vs|
  {
    var some: nat :| some in vs;
    var rest := vs - {some};
    assert forall v <- vs :: v == some || v in rest;
    if rest == {} {
      least := some;
    } else {
      var other := LeastOf(rest);
      least := if other < some then other else some;
    }
  }

  method PickLeast(vs: set<nat>) returns (least: nat)
    requires vs != {}
    ensures least in vs && forall v <- vs :: v != least ==> least < v
  {
    ghost var l := LeastOf(vs);
    least :| least in vs && forall v <- vs :: least <= v;
  }

  // `max(ledger, default=0)`, said by what it is asked: which versions are below.
  method AppliedHead(ledger: Ledger) returns (head: nat)
    ensures forall version: nat :: version < head <==> BelowHead(ledger, version)
  {
    head := 0;
    var left := ledger.Keys;
    while left != {}
      invariant left <= ledger.Keys
      invariant forall v :: v in ledger && v !in left ==> v <= head
      invariant head == 0 || head in ledger
      decreases left
    {
      var v := PickLeast(left);
      left := left - {v};
      if v > head {
        head := v;
      }
    }
  }

  // The discrepancies between a ledger and a tree, in version order.
  method LedgerDiscrepancies(ledger: Ledger, tree: seq<Migration>) returns (issues: seq<nat>)
    ensures issues == [] <==> Intact(ledger, tree)
    ensures !HoldsRetired(ledger, tree) ==>
      forall v :: v in issues <==> v in ledger && !Fits(tree, v, ledger[v])
    ensures forall i, j :: 0 <= i < j < |issues| ==> issues[i] < issues[j]
  {
    hide HoldsRetired, Fits;
    if HoldsRetired(ledger, tree) {
      NonEmptyIfRetired(ledger, tree);
      var least := PickLeast(ledger.Keys);
      return [least];
    }
    issues := [];
    var left := ledger.Keys;
    while left != {}
      invariant left <= ledger.Keys
      invariant forall v :: v in issues <==> v in ledger.Keys - left && !Fits(tree, v, ledger[v])
      invariant forall u <- issues, v <- left :: u < v
      invariant forall i, j :: 0 <= i < j < |issues| ==> issues[i] < issues[j]
      decreases left
    {
      var v := PickLeast(left);
      if !Fits(tree, v, ledger[v]) {
        assert forall i :: 0 <= i < |issues| ==> issues[i] in issues;
        issues := issues + [v];
      }
      left := left - {v};
    }
    if issues != [] {
      assert issues[0] in issues;
    }
  }

  lemma {:induction false} NonEmptyIfRetired(ledger: Ledger, tree: seq<Migration>)
    requires HoldsRetired(ledger, tree)
    ensures ledger.Keys != {}
  {
  }

  // ----- what apply would run -----

  function Unrecorded(window: seq<Migration>, ledger: Ledger): (r: seq<Migration>)
    ensures forall m :: m in r <==> m in window && m.version !in ledger
  {
    if window == [] then []
    else (if window[0].version in ledger then [] else [window[0]]) + Unrecorded(window[1..], ledger)
  }

  function Ordinary(ms: seq<Migration>): (r: seq<Migration>)
    ensures forall m :: m in r <==> m in ms && !m.manual
  {
    if ms == [] then []
    else (if ms[0].manual then [] else [ms[0]]) + Ordinary(ms[1..])
  }

  function Owed(ms: seq<Migration>): (r: seq<Migration>)
    ensures forall m :: m in r <==> m in ms && m.manual
  {
    if ms == [] then []
    else (if ms[0].manual then [ms[0]] else []) + Owed(ms[1..])
  }

  // The files apply would run, in the order it would run them.
  function ToApply(window: seq<Migration>, ledger: Ledger): seq<Migration> {
    Ordinary(Unrecorded(window, ledger))
  }

  // Whether apply accepts a ledger: no retired history, nothing recorded that
  // the window does not hold, the initial version recorded, and nothing pending
  // below the head but what is safe to reapply.
  ghost predicate Accepts(corpus: seq<Migration>, window: seq<Migration>, ledger: Ledger) {
    && !HoldsRetired(ledger, corpus)
    && Intact(ledger, window)
    && (forall m <- Unrecorded(window, ledger) :: m.version != INITIAL_VERSION)
    && (forall m <- ToApply(window, ledger) :: BelowHead(ledger, m.version) ==> m.reapplySafe)
  }
}
