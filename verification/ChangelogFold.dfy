// Folding is an exact action of the list of fragments on the changelog's text.

module ChangelogFold {
  import opened Chars
  import opened Splitter
  import opened LexerLaws
  import opened Joining
  import opened Changelog
  import opened ChangelogLaws

  predicate OneLine(line: string) {
    Free(line, '\n')
  }

  // ----- what is inserted under one section -----

  lemma {:induction false} BodiesOfBoth(first: seq<Fragment>, second: seq<Fragment>, rank: nat)
    ensures BodiesOf(first + second, rank) == BodiesOf(first, rank) + BodiesOf(second, rank)
    decreases |first|
  {
    if first == [] {
      assert first + second == second;
    } else {
      assert (first + second)[1..] == first[1..] + second;
      BodiesOfBoth(first[1..], second, rank);
    }
  }

  lemma {:induction false} EntriesOfBoth(first: seq<Fragment>, second: seq<Fragment>, rank: nat)
    requires BodiesOf(first, rank) != [] && BodiesOf(second, rank) != []
    ensures EntriesOf(first + second, rank) == EntriesOf(first, rank) + [""] + EntriesOf(second, rank)
  {
    BodiesOfBoth(first, second, rank);
    JoinTwo(BodiesOf(first, rank), BodiesOf(second, rank), "\n\n");
    var above, below := JoinWith(BodiesOf(first, rank), "\n\n"), JoinWith(BodiesOf(second, rank), "\n\n");
    assert above + "\n\n" + below == above + "\n" + ("" + "\n" + below);
    SplitBetween(above, "" + "\n" + below, '\n');
    SplitBetween("", below, '\n');
  }

  // A fragment as parsing gives it.
  predicate IsClean(fragment: Fragment) {
    forall rank <- fragment :: Clean(SplitOn(fragment[rank], '\n'))
  }

  predicate AllClean(fragments: seq<Fragment>) {
    forall fragment <- fragments :: IsClean(fragment)
  }

  lemma {:induction false} EntriesAreClean(fragments: seq<Fragment>, rank: nat)
    requires AllClean(fragments) && BodiesOf(fragments, rank) != []
    ensures Clean(EntriesOf(fragments, rank))
  {
    var one := if rank in fragments[0] then [fragments[0][rank]] else [];
    var rest := BodiesOf(fragments[1..], rank);
    assert IsClean(fragments[0]);
    if rest == [] {
      assert JoinWith(BodiesOf(fragments, rank), "\n\n") == fragments[0][rank];
    } else {
      EntriesAreClean(fragments[1..], rank);
      if one == [] {
        assert BodiesOf(fragments, rank) == rest;
      } else {
        assert BodiesOf([fragments[0]], rank) == one;
        assert [fragments[0]] + fragments[1..] == fragments;
        EntriesOfBoth([fragments[0]], fragments[1..], rank);
        assert EntriesOf([fragments[0]], rank) == SplitOn(fragments[0][rank], '\n');
        EmptyPasses();
      }
    }
  }

  // ----- insertions into the whole text -----

  lemma {:induction false} IndexOfKept(lines: seq<string>, line: string, more: seq<string>)
    requires line in lines
    ensures
      var upTo := lines[..IndexOf(lines, line) + 1] + more;
      line in upTo && IndexOf(upTo, line) == IndexOf(lines, line)
  {
    var k := IndexOf(lines, line);
    var upTo := lines[..k + 1] + more;
    assert upTo[k] == line;
    var j := IndexOf(upTo, line);
    assert forall i :: 0 <= i < k ==> lines[..k][i] == upTo[i] != line;
    assert forall i :: 0 <= i < j ==> upTo[..j][i] == upTo[i];
  }

  lemma {:induction false} InsertedTwice(
    lines: seq<string>, one: nat, first: seq<string>, other: nat, second: seq<string>)
    requires UNRELEASED in lines && one < |SECTIONS| && other < |SECTIONS|
    ensures
      var k := IndexOf(lines, UNRELEASED);
      Inserted(Inserted(lines, one, first), other, second) ==
      lines[..k + 1] + Place(lines[k], Place(lines[k], lines[k + 1..], -1, one, first), -1, other, second)
  {
    hide Place, IndexOf;
    var k := IndexOf(lines, UNRELEASED);
    var below := Place(lines[k], lines[k + 1..], -1, one, first);
    IndexOfKept(lines, UNRELEASED, below);
    var upTo := lines[..k + 1] + below;
    assert upTo[k + 1..] == below && upTo[..k + 1] == lines[..k + 1];
  }

  lemma {:induction false} InsertionsMerge(
    lines: seq<string>, rank: nat, first: seq<string>, second: seq<string>)
    requires UNRELEASED in lines && rank < |SECTIONS|
    ensures
      Inserted(Inserted(lines, rank, first), rank, second) == Inserted(lines, rank, second + [""] + first)
  {
    var k := IndexOf(lines, UNRELEASED);
    InsertedTwice(lines, rank, first, rank, second);
    Merge(lines[k], lines[k + 1..], -1, rank, first, second);
  }

  lemma {:induction false} InsertionsCommute(
    lines: seq<string>, one: nat, first: seq<string>, other: nat, second: seq<string>)
    requires UNRELEASED in lines && one < |SECTIONS| && other < |SECTIONS| && one != other
    requires Clean(first) && Clean(second)
    ensures
      Inserted(Inserted(lines, one, first), other, second) ==
      Inserted(Inserted(lines, other, second), one, first)
  {
    var k := IndexOf(lines, UNRELEASED);
    InsertedTwice(lines, one, first, other, second);
    InsertedTwice(lines, other, second, one, first);
    if one < other {
      Commute(lines[k], lines[k + 1..], -1, one, first, other, second);
    } else {
      Commute(lines[k], lines[k + 1..], -1, other, second, one, first);
    }
  }

  // ----- two folds -----

  lemma {:induction false} SectionsMerge(
    lines: seq<string>, first: seq<Fragment>, second: seq<Fragment>, rank: nat)
    requires UNRELEASED in lines && rank < |SECTIONS|
    ensures
      FoldSection(FoldSection(lines, first, rank), second, rank) == FoldSection(lines, second + first, rank)
  {
    hide Inserted, EntriesOf;
    BodiesOfBoth(second, first, rank);
    if BodiesOf(first, rank) == [] {
      SameBodies(second, second + first, rank);
    } else if BodiesOf(second, rank) == [] {
      SameBodies(first, second + first, rank);
    } else {
      EntriesOfBoth(second, first, rank);
      InsertionsMerge(lines, rank, EntriesOf(first, rank), EntriesOf(second, rank));
    }
  }

  lemma {:induction false} SameBodies(some: seq<Fragment>, others: seq<Fragment>, rank: nat)
    requires BodiesOf(some, rank) == BodiesOf(others, rank)
    ensures EntriesOf(some, rank) == EntriesOf(others, rank)
  {
  }

  lemma {:induction false} SectionPassesFold(
    lines: seq<string>, first: seq<Fragment>, from: nat, second: seq<Fragment>, rank: nat)
    requires UNRELEASED in lines && rank < from <= |SECTIONS| && AllClean(first) && AllClean(second)
    ensures
      FoldSection(FoldFrom(lines, first, from), second, rank) ==
      FoldFrom(FoldSection(lines, second, rank), first, from)
    decreases |SECTIONS| - from
  {
    hide Inserted, BodiesOf, EntriesOf, AllClean, Clean;
    if from < |SECTIONS| {
      var next := FoldSection(lines, first, from);
      SectionPassesFold(next, first, from + 1, second, rank);
      if BodiesOf(first, from) != [] && BodiesOf(second, rank) != [] {
        EntriesAreClean(first, from);
        EntriesAreClean(second, rank);
        InsertionsCommute(lines, from, EntriesOf(first, from), rank, EntriesOf(second, rank));
      }
    }
  }

  lemma {:induction false} FoldsMerge(
    lines: seq<string>, first: seq<Fragment>, second: seq<Fragment>, rank: nat)
    requires UNRELEASED in lines && rank <= |SECTIONS| && AllClean(first) && AllClean(second)
    ensures
      FoldFrom(FoldFrom(lines, first, rank), second, rank) == FoldFrom(lines, second + first, rank)
    decreases |SECTIONS| - rank
  {
    hide FoldSection;
    if rank < |SECTIONS| {
      var next := FoldSection(lines, first, rank);
      SectionPassesFold(next, first, rank + 1, second, rank);
      SectionsMerge(lines, first, second, rank);
      FoldsMerge(FoldSection(lines, second + first, rank), first, second, rank + 1);
    }
  }

  // ----- the lines of a folded text -----

  ghost predicate AllOne(lines: seq<string>) {
    forall line <- lines :: OneLine(line)
  }

  lemma {:induction false} AllOneBoth(a: seq<string>, b: seq<string>)
    requires AllOne(a) && AllOne(b)
    ensures AllOne(a + b)
  {
    hide OneLine;
  }

  lemma {:induction false} NewSectionOneLines(above: string, rank: nat, entries: seq<string>)
    requires rank < |SECTIONS| && AllOne(entries)
    ensures AllOne(NewSection(above, rank, entries))
  {
    assert OneLine(HeadingOf(rank)) && OneLine("");
    hide OneLine, HeadingOf, Blank;
  }

  lemma {:induction false} UnderOneLines(entries: seq<string>, rest: seq<string>)
    requires AllOne(entries) && AllOne(rest)
    ensures AllOne(Under(entries, rest))
  {
    assert OneLine("");
    hide OneLine, Blank;
  }

  lemma {:induction false} PlaceOneLines(
    above: string, rest: seq<string>, previous: int, rank: nat, entries: seq<string>)
    requires rank < |SECTIONS| && AllOne(rest) && AllOne(entries)
    ensures AllOne(Place(above, rest, previous, rank, entries))
    decreases |rest|
  {
    hide SectionOf, EndsGroup, OneLine, NewSection, Under, AllOne, Stops;
    NewSectionOneLines(above, rank, entries);
    AllOneBoth(NewSection(above, rank, entries), rest);
    if rest != [] {
      HeadOneLine(rest);
      var here := SectionOf(rest[0]);
      var next := if here.None? then previous else here.value;
      PlaceOneLines(rest[0], rest[1..], next, rank, entries);
      AllOneBoth([rest[0]], Place(rest[0], rest[1..], next, rank, entries));
      UnderOneLines(entries, rest[1..]);
      AllOneBoth([rest[0]], Under(entries, rest[1..]));
    }
  }

  lemma {:induction false} HeadOneLine(lines: seq<string>)
    requires lines != [] && AllOne(lines)
    ensures AllOne([lines[0]]) && AllOne(lines[1..])
  {
    hide OneLine;
  }

  lemma {:induction false} FoldOneLines(lines: seq<string>, fragments: seq<Fragment>, rank: nat)
    requires UNRELEASED in lines && rank <= |SECTIONS|
    requires forall line <- lines :: OneLine(line)
    ensures forall line <- FoldFrom(lines, fragments, rank) :: OneLine(line)
    decreases |SECTIONS| - rank
  {
    hide Inserted, OneLine, BodiesOf, EntriesOf;
    if rank < |SECTIONS| {
      var next := FoldSection(lines, fragments, rank);
      if BodiesOf(fragments, rank) != [] {
        EntriesOneLines(fragments, rank);
        InsertedOneLines(lines, rank, EntriesOf(fragments, rank));
      }
      FoldOneLines(next, fragments, rank + 1);
    }
  }

  lemma {:induction false} EntriesOneLines(fragments: seq<Fragment>, rank: nat)
    ensures forall line <- EntriesOf(fragments, rank) :: OneLine(line)
  {
  }

  lemma {:induction false} InsertedOneLines(lines: seq<string>, rank: nat, entries: seq<string>)
    requires UNRELEASED in lines && rank < |SECTIONS|
    requires (forall line <- lines :: OneLine(line)) && forall line <- entries :: OneLine(line)
    ensures forall line <- Inserted(lines, rank, entries) :: OneLine(line)
  {
    hide Place, OneLine;
    var k := IndexOf(lines, UNRELEASED);
    assert AllOne(lines[k + 1..]) && AllOne(entries);
    PlaceOneLines(lines[k], lines[k + 1..], -1, rank, entries);
  }

  // Folding one batch and then another is folding the later batch's fragments
  // ahead of the earlier one's, character for character; folding nothing
  // changes nothing.
  lemma {:induction false} FoldIsAnAction(changelog: string, first: seq<Fragment>, second: seq<Fragment>)
    requires AllClean(first) && AllClean(second)
    ensures
      match Folded(changelog, first)
      case Some(folded) => Folded(folded, second) == Folded(changelog, second + first)
      case None => Folded(changelog, second + first) == None
    ensures Folded(changelog, []) == None || Folded(changelog, []) == Some(changelog)
  {
    var lines := SplitOn(changelog, '\n');
    if UNRELEASED in lines {
      FoldOneLines(lines, first, 0);
      SplitJoined(FoldFrom(lines, first, 0), '\n');
      FoldsMerge(lines, first, second, 0);
      FoldNothing(lines, 0);
      JoinSplit(changelog, '\n');
    }
  }

  lemma {:induction false} FoldNothing(lines: seq<string>, rank: nat)
    requires UNRELEASED in lines && rank <= |SECTIONS|
    ensures FoldFrom(lines, [], rank) == lines
    decreases |SECTIONS| - rank
  {
    if rank < |SECTIONS| {
      FoldNothing(lines, rank + 1);
    }
  }
}
