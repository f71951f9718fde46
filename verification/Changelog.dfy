// Changelog fragments folded into the newest group of the unreleased section.

module Changelog {
  import opened Chars
  import opened ExecutionMode
  import opened Splitter
  import opened LexerLaws

  const UNRELEASED := "## [Unreleased]"

  const SECTIONS: seq<string> := [
    "Added", "Changed", "Deprecated", "Removed", "Fixed", "Security", "Documentation", "Tests"
  ]

  // ----- lines -----

  function HashRun(line: string): (n: nat)
    ensures n <= |line|
  {
    if line == "" || line[0] != '#' then 0 else 1 + HashRun(line[1..])
  }

  // One to six hashes and whitespace.
  predicate IsHeading(line: string) {
    1 <= HashRun(line) <= 6 && HashRun(line) < |line| && IsSpace(line[HashRun(line)])
  }

  function RankOf(name: string, from: nat): Option<nat>
    requires from <= |SECTIONS|
    decreases |SECTIONS| - from
  {
    if from == |SECTIONS| then None
    else if SECTIONS[from] == name then Some(from)
    else RankOf(name, from + 1)
  }

  // The section a `### <Section>` line opens, as its place in the order.
  function SectionOf(line: string): Option<nat> {
    if StartsWith(line, "### ") then RankOf(Strip(line[4..]), 0) else None
  }

  predicate EndsGroup(line: string) {
    StartsWith(line, "## ")
  }

  function HeadingOf(rank: nat): string
    requires rank < |SECTIONS|
  {
    "### " + SECTIONS[rank]
  }

  function Gap(needed: bool): seq<string> {
    if needed then [""] else []
  }

  // ----- one insertion -----

  // Entries put first under a heading that is there.
  function Under(entries: seq<string>, rest: seq<string>): seq<string> {
    [""] + entries + Gap(rest != [] && !Blank(rest[0])) + rest
  }

  // A heading made for them, after the line `above`.
  function NewSection(above: string, rank: nat, entries: seq<string>): seq<string>
    requires rank < |SECTIONS|
  {
    Gap(!Blank(above)) + [HeadingOf(rank), ""] + entries + [""]
  }

  // Whether a heading at `here`, past the last one at `previous`, ends the search
  // for the place of `rank`: it is past that place, or an older group began.
  predicate Stops(previous: int, here: nat, rank: nat) {
    !(previous < here < rank)
  }

  // The lines below `above`, with the entries in the place the order gives them.
  function Place(above: string, rest: seq<string>, previous: int, rank: nat, entries: seq<string>): seq<string>
    requires rank < |SECTIONS|
    decreases |rest|
  {
    if rest == [] || EndsGroup(rest[0]) then NewSection(above, rank, entries) + rest
    else
      match SectionOf(rest[0])
      case None => [rest[0]] + Place(rest[0], rest[1..], previous, rank, entries)
      case Some(here) =>
        if here == rank then [rest[0]] + Under(entries, rest[1..])
        else if Stops(previous, here, rank) then NewSection(above, rank, entries) + rest
        else [rest[0]] + Place(rest[0], rest[1..], here, rank, entries)
  }

  function IndexOf(lines: seq<string>, line: string): (k: nat)
    requires line in lines
    ensures k < |lines| && lines[k] == line && line !in lines[..k]
  {
    if lines[0] == line then 0
    else
      var k := IndexOf(lines[1..], line);
      assert lines[..k + 1] == [lines[0]] + lines[1..][..k];
      1 + k
  }

  function Inserted(lines: seq<string>, rank: nat, entries: seq<string>): (r: seq<string>)
    requires UNRELEASED in lines && rank < |SECTIONS|
    ensures UNRELEASED in r
  {
    var k := IndexOf(lines, UNRELEASED);
    lines[..k + 1] + Place(lines[k], lines[k + 1..], -1, rank, entries)
  }

  // The changelog while it is folded into: its lines, spliced in place.
  class Document {
    var lines: seq<string>

    constructor (text: string)
      ensures lines == SplitOn(text, '\n')
    {
      lines := SplitOn(text, '\n');
    }

    method Splice(at: nat, added: seq<string>)
      requires at <= |lines|
      modifies this
      ensures lines == old(lines[..at]) + added + old(lines[at..])
    {
      lines := lines[..at] + added + lines[at..];
    }

    method Insert(rank: nat, entries: seq<string>)
      requires UNRELEASED in lines && rank < |SECTIONS|
      modifies this
      ensures lines == Inserted(old(lines), rank, entries)
    {
      hide Place, SectionOf;
      var previous: int := -1;
      var at := IndexOf(lines, UNRELEASED) + 1;
      ghost var result := Inserted(lines, rank, entries);
      while at < |lines| && !EndsGroup(lines[at])
        invariant 1 <= at <= |lines| && lines == old(lines)
        invariant result == lines[..at] + Place(lines[at - 1], lines[at..], previous, rank, entries)
      {
        PlaceStep(lines, at, previous, rank, entries);
        var name := SectionOf(lines[at]);
        if name.Some? {
          var here := name.value;
          if here == rank {
            var gap := Gap(at + 1 < |lines| && !Blank(lines[at + 1]));
            Splice(at + 1, [""] + entries + gap);
            return;
          }
          if Stops(previous, here, rank) {
            break;
          }
          previous := here;
        }
        at := at + 1;
      }
      PlaceEnds(lines, at, previous, rank, entries);
      var gap := Gap(!Blank(lines[at - 1]));
      Splice(at, gap + [HeadingOf(rank), ""] + entries + [""]);
    }
  }

  // One line of the search.
  lemma {:induction false} PlaceStep(
    lines: seq<string>, at: nat, previous: int, rank: nat, entries: seq<string>)
    requires 1 <= at < |lines| && rank < |SECTIONS| && !EndsGroup(lines[at])
    ensures
      var placed := lines[..at] + Place(lines[at - 1], lines[at..], previous, rank, entries);
      match SectionOf(lines[at])
      case None => placed == lines[..at + 1] + Place(lines[at], lines[at + 1..], previous, rank, entries)
      case Some(here) =>
        if here == rank then
          placed ==
          lines[..at + 1]
          + ([""] + entries + Gap(at + 1 < |lines| && !Blank(lines[at + 1]))) + lines[at + 1..]
        else if Stops(previous, here, rank) then
          placed == lines[..at] + (NewSection(lines[at - 1], rank, entries) + lines[at..])
        else placed == lines[..at + 1] + Place(lines[at], lines[at + 1..], here, rank, entries)
  {
    hide SectionOf;
    var rest := lines[at..];
    assert rest[0] == lines[at] && rest[1..] == lines[at + 1..];
    assert lines[..at + 1] == lines[..at] + [lines[at]];
  }

  lemma {:induction false} PlaceEnds(
    lines: seq<string>, at: nat, previous: int, rank: nat, entries: seq<string>)
    requires 1 <= at <= |lines| && rank < |SECTIONS|
    requires at == |lines| || EndsGroup(lines[at]) ||
      (SectionOf(lines[at]).Some? && SectionOf(lines[at]).value != rank
       && Stops(previous, SectionOf(lines[at]).value, rank))
    ensures
      lines[..at] + Place(lines[at - 1], lines[at..], previous, rank, entries) ==
      lines[..at]
      + (Gap(!Blank(lines[at - 1])) + [HeadingOf(rank), ""] + entries + [""]) + lines[at..]
  {
    hide SectionOf;
    assert at < |lines| ==> lines[at..][0] == lines[at];
  }

  // ----- folding -----

  // A fragment's entries by section.
  type Fragment = map<nat, string>

  function BodiesOf(fragments: seq<Fragment>, rank: nat): seq<string> {
    if fragments == [] then []
    else (if rank in fragments[0] then [fragments[0][rank]] else []) + BodiesOf(fragments[1..], rank)
  }

  // What the fragments put under one section, as lines: a blank one between
  // two fragments.
  function EntriesOf(fragments: seq<Fragment>, rank: nat): seq<string> {
    SplitOn(JoinWith(BodiesOf(fragments, rank), "\n\n"), '\n')
  }

  function FoldSection(lines: seq<string>, fragments: seq<Fragment>, rank: nat): (r: seq<string>)
    requires UNRELEASED in lines && rank < |SECTIONS|
    ensures UNRELEASED in r
  {
    if BodiesOf(fragments, rank) == [] then lines
    else Inserted(lines, rank, EntriesOf(fragments, rank))
  }

  // The sections from `rank` on, folded in.
  function FoldFrom(lines: seq<string>, fragments: seq<Fragment>, rank: nat): (r: seq<string>)
    requires UNRELEASED in lines && rank <= |SECTIONS|
    ensures UNRELEASED in r
    decreases |SECTIONS| - rank
  {
    if rank == |SECTIONS| then lines
    else FoldFrom(FoldSection(lines, fragments, rank), fragments, rank + 1)
  }

  // `None` is the refusal of a changelog with nowhere to fold.
  function Folded(changelog: string, fragments: seq<Fragment>): Option<string> {
    var lines := SplitOn(changelog, '\n');
    if UNRELEASED !in lines then None else Some(JoinWith(FoldFrom(lines, fragments, 0), "\n"))
  }

  method Fold(changelog: string, fragments: seq<Fragment>) returns (folded: Option<string>)
    ensures folded == Folded(changelog, fragments)
  {
    hide Inserted, BodiesOf;
    var document := new Document(changelog);
    if UNRELEASED !in document.lines {
      return None;
    }
    for rank := 0 to |SECTIONS|
      invariant UNRELEASED in document.lines
      invariant FoldFrom(document.lines, fragments, rank) == FoldFrom(SplitOn(changelog, '\n'), fragments, 0)
    {
      var bodies := BodiesOf(fragments, rank);
      if bodies != [] {
        document.Insert(rank, SplitOn(JoinWith(bodies, "\n\n"), '\n'));
      }
    }
    return Some(JoinWith(document.lines, "\n"));
  }
}
