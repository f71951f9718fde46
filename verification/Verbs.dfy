// The runner's writing verbs, and how a run of each can end.

module Verbs {
  import opened Chars
  import opened Migrations
  import opened Database
  import opened Transcripts
  import opened Outcomes
  import opened Adoption

  datatype Verb =
    | Apply(bound: Option<nat>)
    | ApplyManual(version: nat)
    | Adopt(bound: Option<nat>, floor: int, raw: seq<ManifestEntry>)
    | ConvertLedger(floor: int, raw: seq<ManifestEntry>)
    | Repair(version: nat)

  // What a run that took the lock on `before` may have left, having said `said`.
  ghost predicate RunEnds(
    tree: seq<Migration>, verb: Verb, before: Db, after: Db, said: seq<Event>, ok: bool)
  {
    match verb
    case Apply(bound) =>
      && ApplyEnds(tree, Within(tree, bound), before, after, ok)
      && RowsShown(Within(tree, bound), NOTHING_GIVEN, before.Rows(), after.Rows(), said)
    case ApplyManual(version) =>
      && ManualEnds(tree, version, before, after, ok)
      && RowsShown(tree, NOTHING_GIVEN, before.Rows(), after.Rows(), said)
    case Adopt(bound, floor, raw) =>
      && Readable(raw, floor, Within(tree, bound), tree)
      && exists entries ::
           && Manifested(entries, raw, Within(tree, bound))
           && AdoptEnds(tree, Within(tree, bound), floor, entries, before, after, said, ok)
    case ConvertLedger(floor, raw) =>
      && Readable(raw, floor, tree, tree)
      && exists entries ::
           && Manifested(entries, raw, tree)
           && ConvertEnds(tree, floor, entries, before, after, said, ok)
    case Repair(version) => RepairEnds(tree, version, before, after, ok)
  }
}
