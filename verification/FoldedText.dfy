// A fold said of the lines themselves: it stays above the first release, keeps
// everything from there on, and puts each section's entries right under a line
// that reads as that section's heading.

module FoldedText {
  import opened Chars
  import opened ExecutionMode
  import opened Splitter
  import opened Joining
  import opened LexerLaws
  import opened Changelog
  import opened ChangelogLaws
  import opened ChangelogFold
  import opened ChangelogReading

  // A line that starts a release.
  predicate IsRelease(line: string) {
    |line| >= 3 && line[..3] == "## "
  }

  // The first `n` lines start no release.
  predicate NoRelease(lines: seq<string>, n: nat)
    requires n <= |lines|
  {
    forall i :: 0 <= i < n ==> !IsRelease(lines[i])
  }

  // `now` ends with `was` from its `n`th line on, and starts no release before.
  predicate KeepsFrom(was: seq<string>, now: seq<string>, n: nat)
    requires n <= |was|
  {
    && |was| - n <= |now|
    && now[|now| - (|was| - n)..] == was[n..]
    && NoRelease(now, |now| - (|was| - n))
  }

  lemma {:induction false} CleanIsNoRelease(entries: seq<string>)
    requires forall line <- entries :: Passes(line)
    ensures NoRelease(entries, |entries|)
  {
    hide SectionOf;
    forall i | 0 <= i < |entries| ensures !IsRelease(entries[i]) {
      assert Passes(entries[i]);
    }
  }

  lemma {:induction false} HeadingIsNoRelease(rank: nat)
    requires rank < |SECTIONS|
    ensures !IsRelease(HeadingOf(rank)) && !IsRelease("")
  {
    assert HeadingOf(rank)[2] == '#';
  }

  // Lines put in front.
  lemma {:induction false} KeepsBehind(lines: seq<string>, was: seq<string>, now: seq<string>, n: nat)
    requires n <= |was| && KeepsFrom(was, now, n) && NoRelease(lines, |lines|)
    ensures KeepsFrom(was, lines + now, n)
  {
    var all := lines + now;
    var k := |now| - (|was| - n);
    assert all[|lines| + k..] == now[k..];
    forall i | 0 <= i < |lines| + k ensures !IsRelease(all[i]) {
      assert all[i] == if i < |lines| then lines[i] else now[i - |lines|];
    }
  }

  lemma {:induction false} KeepsItself(was: seq<string>, n: nat)
    requires n <= |was| && NoRelease(was, n)
    ensures KeepsFrom(was, was, n)
  {
  }

  // One line more in front of both.
  lemma {:induction false} KeepsOneMore(line: string, was: seq<string>, now: seq<string>, n: nat)
    requires was != [] && line == was[0] && 0 < n <= |was| && !IsRelease(line)
    requires KeepsFrom(was[1..], now, n - 1)
    ensures KeepsFrom(was, [line] + now, n)
  {
    KeepsBehind([line], was[1..], now, n - 1);
    assert was[1..][n - 1..] == was[n..];
  }

  lemma {:induction false} PlaceKeepsFrom(
    above: string, rest: seq<string>, previous: int, rank: nat, entries: seq<string>, n: nat)
    requires rank < |SECTIONS| && n <= |rest| && NoRelease(entries, |entries|)
    requires NoRelease(rest, n) && (n < |rest| ==> IsRelease(rest[n]))
    ensures KeepsFrom(rest, Place(above, rest, previous, rank, entries), n)
    decreases |rest|
  {
    hide SectionOf, Under, NewSection, KeepsFrom, Stops;
    ReleaseEnds(rest);
    if rest == [] || EndsGroup(rest[0]) {
      NewSectionKeeps(above, rest, rank, entries, n);
    } else {
      TailHasNone(rest, n);
      match SectionOf(rest[0])
      case None => {
        PlaceKeepsFrom(rest[0], rest[1..], previous, rank, entries, n - 1);
        KeepsOneMore(rest[0], rest, Place(rest[0], rest[1..], previous, rank, entries), n);
      }
      case Some(here) => {
        if here == rank {
          UnderKeeps(rest[1..], entries, n - 1);
          KeepsOneMore(rest[0], rest, Under(entries, rest[1..]), n);
        } else if Stops(previous, here, rank) {
          NewSectionKeeps(above, rest, rank, entries, n);
        } else {
          PlaceKeepsFrom(rest[0], rest[1..], here, rank, entries, n - 1);
          KeepsOneMore(rest[0], rest, Place(rest[0], rest[1..], here, rank, entries), n);
        }
      }
    }
  }

  lemma {:induction false} ReleaseEnds(rest: seq<string>)
    ensures rest != [] ==> (IsRelease(rest[0]) <==> EndsGroup(rest[0]))
  {
  }

  lemma {:induction false} TailHasNone(rest: seq<string>, n: nat)
    requires n <= |rest| && rest != [] && !IsRelease(rest[0])
    requires NoRelease(rest, n) && (n < |rest| ==> IsRelease(rest[n]))
    ensures n > 0 && NoRelease(rest[1..], n - 1) && (n < |rest| ==> IsRelease(rest[1..][n - 1]))
  {
    hide IsRelease;
  }

  lemma {:induction false} NewSectionKeeps(
    above: string, rest: seq<string>, rank: nat, entries: seq<string>, n: nat)
    requires rank < |SECTIONS| && n <= |rest| && NoRelease(rest, n) && NoRelease(entries, |entries|)
    ensures KeepsFrom(rest, NewSection(above, rank, entries) + rest, n)
  {
    HeadingIsNoRelease(rank);
    hide IsRelease, HeadingOf, Blank;
    KeepsItself(rest, n);
    KeepsBehind(NewSection(above, rank, entries), rest, rest, n);
  }

  lemma {:induction false} UnderKeeps(rest: seq<string>, entries: seq<string>, n: nat)
    requires n <= |rest| && NoRelease(rest, n) && NoRelease(entries, |entries|)
    ensures KeepsFrom(rest, Under(entries, rest), n)
  {
    HeadingIsNoRelease(0);
    hide IsRelease, Blank;
    KeepsItself(rest, n);
    var lines := [""] + entries + Gap(rest != [] && !Blank(rest[0]));
    KeepsBehind(lines, rest, rest, n);
  }

  lemma {:induction false} KeepsTwice(was: seq<string>, between: seq<string>, now: seq<string>, n: nat)
    requires n <= |was| && KeepsFrom(was, between, n)
    requires KeepsFrom(between, now, |between| - (|was| - n))
    ensures KeepsFrom(was, now, n)
  {
    hide IsRelease;
  }

  lemma {:induction false} FoldKeepsFrom(
    above: string, rest: seq<string>, fragments: seq<Fragment>, rank: nat, n: nat)
    requires rank <= |SECTIONS| && AllClean(fragments) && n <= |rest|
    requires NoRelease(rest, n) && (n < |rest| ==> IsRelease(rest[n]))
    ensures KeepsFrom(rest, FoldBelow(above, rest, fragments, rank), n)
    decreases |SECTIONS| - rank
  {
    hide Place, BodiesOf, EntriesOf, AllClean, IsRelease;
    if rank == |SECTIONS| {
      KeepsItself(rest, n);
    } else if BodiesOf(fragments, rank) == [] {
      FoldKeepsFrom(above, rest, fragments, rank + 1, n);
    } else {
      var entries := EntriesOf(fragments, rank);
      EntriesAreClean(fragments, rank);
      CleanIsNoRelease(entries);
      var next := Place(above, rest, -1, rank, entries);
      PlaceKeepsFrom(above, rest, -1, rank, entries, n);
      var m := |next| - (|rest| - n);
      StillStarts(rest, next, n);
      FoldKeepsFrom(above, next, fragments, rank + 1, m);
      KeepsTwice(rest, next, FoldBelow(above, next, fragments, rank + 1), n);
    }
  }

  lemma {:induction false} StillStarts(was: seq<string>, now: seq<string>, n: nat)
    requires n <= |was| && KeepsFrom(was, now, n) && (n < |was| ==> IsRelease(was[n]))
    ensures
      var m := |now| - (|was| - n);
      m <= |now| && NoRelease(now, m) && (m < |now| ==> IsRelease(now[m]))
  {
    hide IsRelease;
    var m := |now| - (|was| - n);
    if m < |now| {
      assert now[m..][0] == was[n..][0];
    }
  }

  // However a changelog is folded, everything down to its unreleased heading and
  // everything from the first release below it on is kept line for line, and what
  // was added in between starts no release.
  lemma {:induction false} FoldKeepsReleases(changelog: string, fragments: seq<Fragment>, k: nat, j: nat)
    requires AllClean(fragments) && Folded(changelog, fragments).Some?
    requires
      var was := SplitOn(changelog, '\n');
      && k < j <= |was| && was[k] == "## [Unreleased]" && "## [Unreleased]" !in was[..k]
      && (forall i :: k < i < j ==> !("## " <= was[i]))
      && (j < |was| ==> "## " <= was[j])
    ensures
      var was, now := SplitOn(changelog, '\n'), SplitOn(Folded(changelog, fragments).value, '\n');
      var m := |now| - (|was| - j);
      && k < m && now[..k + 1] == was[..k + 1] && now[m..] == was[j..]
      && forall i :: k < i < m ==> !("## " <= now[i])
  {
    hide SplitOn, Folded, FoldBelow, AllClean, IsRelease, KeepsFrom, NoRelease;
    var was, now := SplitOn(changelog, '\n'), SplitOn(Folded(changelog, fragments).value, '\n');
    FoldedLines(changelog, fragments, k);
    ReleaseAt(was, k, j);
    FoldKeepsFrom(was[k], was[k + 1..], fragments, 0, j - (k + 1));
    BelowKeeps(was, now, FoldBelow(was[k], was[k + 1..], fragments, 0), k, j);
  }

  lemma {:induction false} FoldedLines(changelog: string, fragments: seq<Fragment>, k: nat)
    requires AllClean(fragments) && Folded(changelog, fragments).Some?
    requires
      var was := SplitOn(changelog, '\n');
      k < |was| && was[k] == UNRELEASED && UNRELEASED !in was[..k]
    ensures
      var was, now := SplitOn(changelog, '\n'), SplitOn(Folded(changelog, fragments).value, '\n');
      now == was[..k + 1] + FoldBelow(was[k], was[k + 1..], fragments, 0)
  {
    hide FoldFrom, FoldBelow, JoinWith, IndexOf, AllClean;
    var was := SplitOn(changelog, '\n');
    LinesHaveNoBreak(changelog);
    FoldOneLines(was, fragments, 0);
    SplitJoined(FoldFrom(was, fragments, 0), '\n');
    FoldIsBelow(was, fragments, 0);
    FirstIndex(was, UNRELEASED, k);
  }

  lemma {:induction false} ReleaseIsPrefix(line: string)
    ensures IsRelease(line) <==> "## " <= line
  {
  }

  lemma {:induction false} ReleaseAt(was: seq<string>, k: nat, j: nat)
    requires k < j <= |was| && (forall i :: k < i < j ==> !("## " <= was[i])) && (j < |was| ==> "## " <= was[j])
    ensures
      var rest, n := was[k + 1..], j - (k + 1);
      NoRelease(rest, n) && (n < |rest| ==> IsRelease(rest[n]))
  {
    hide IsRelease;
    forall i | k < i < |was| ensures IsRelease(was[k + 1..][i - (k + 1)]) <==> "## " <= was[i] {
      ReleaseIsPrefix(was[i]);
    }
  }

  lemma {:induction false} FirstIndex(lines: seq<string>, line: string, k: nat)
    requires k < |lines| && lines[k] == line && line !in lines[..k]
    ensures IndexOf(lines, line) == k
  {
    hide IndexOf;
    var i := IndexOf(lines, line);
    assert forall m :: 0 <= m < k ==> lines[..k][m] == lines[m];
    assert forall m :: 0 <= m < i ==> lines[..i][m] == lines[m];
  }

  lemma {:induction false} BelowKeeps(
    was: seq<string>, now: seq<string>, below: seq<string>, k: nat, j: nat)
    requires k < j <= |was| && now == was[..k + 1] + below && KeepsFrom(was[k + 1..], below, j - (k + 1))
    ensures
      var m := |now| - (|was| - j);
      && k < m && now[..k + 1] == was[..k + 1] && now[m..] == was[j..]
      && forall i :: k < i < m ==> !("## " <= now[i])
  {
    hide IsRelease;
    var m := |now| - (|was| - j);
    assert was[k + 1..][j - (k + 1)..] == was[j..];
    assert now[m..] == below[m - (k + 1)..];
    forall i | k < i < m ensures !("## " <= now[i]) {
      assert now[i] == below[i - (k + 1)];
      ReleaseIsPrefix(now[i]);
    }
  }

  // ----- where the entries stand -----

  // A line that reads as the heading of a section.
  predicate ReadsAs(line: string, name: string) {
    "### " <= line && Strip(line[4..]) == name
  }

  lemma {:induction false} SectionReads(line: string, rank: nat)
    requires rank < |SECTIONS|
    ensures SectionOf(line) == Some(rank) <==> ReadsAs(line, SECTIONS[rank])
  {
    hide Strip;
    if "### " <= line {
      RankReads(Strip(line[4..]), 0, rank);
    }
  }

  lemma {:induction false} RankReads(name: string, from: nat, rank: nat)
    requires from <= rank < |SECTIONS|
    ensures RankOf(name, from) == Some(rank) <==> name == SECTIONS[rank]
  {
    if name == SECTIONS[rank] {
      RankOfSection(rank, from);
    } else {
      RankIsItsName(name, from);
    }
  }

  lemma {:induction false} RankIsItsName(name: string, from: nat)
    requires from <= |SECTIONS|
    ensures
      var rank := RankOf(name, from);
      rank.Some? ==> rank.value < |SECTIONS| && SECTIONS[rank.value] == name
    decreases |SECTIONS| - from
  {
    if from < |SECTIONS| && SECTIONS[from] != name {
      RankIsItsName(name, from + 1);
    }
  }

  lemma {:induction false} BodyIsPrefix(rest: seq<string>)
    ensures UpToHeading(rest) <= rest
  {
    hide Passes;
    if rest != [] && Passes(rest[0]) {
      BodyIsPrefix(rest[1..]);
      assert rest == [rest[0]] + rest[1..];
    }
  }

  // The body of a section stands right under the first line that reads as its
  // heading, with no release above.
  lemma {:induction false} BodyStands(rest: seq<string>, previous: int, rank: nat) returns (i: nat)
    requires rank < |SECTIONS| && BodyIn(rest, previous, rank).Some?
    ensures i < |rest| && ReadsAs(rest[i], SECTIONS[rank])
    ensures BodyIn(rest, previous, rank).value <= rest[i + 1..]
    ensures forall x :: 0 <= x <= i ==> !IsRelease(rest[x])
    ensures forall x :: 0 <= x < i ==> !ReadsAs(rest[x], SECTIONS[rank])
    decreases |rest|
  {
    hide SectionOf, ReadsAs, IsRelease, UpToHeading;
    SectionReads(rest[0], rank);
    ReleaseEnds(rest);
    var here := SectionOf(rest[0]);
    if here == Some(rank) {
      i := 0;
      BodyIsPrefix(rest[1..]);
    } else {
      i := BodyStands(rest[1..], if here.Some? then here.value else previous, rank);
      i := i + 1;
      assert rest[1..][i..] == rest[i + 1..];
      assert forall x :: 1 <= x <= i ==> rest[x] == rest[1..][x - 1];
    }
  }

  // After a fold the entries of every section a fragment names, one fragment's
  // behind another's with an empty line between, stand under the first line below
  // the unreleased heading that reads as that section, and above any release.
  lemma {:induction false} EntriesStandFirst(changelog: string, fragments: seq<Fragment>, rank: nat)
    returns (k: nat, i: nat)
    requires AllClean(fragments) && Folded(changelog, fragments).Some? && rank < |SECTIONS|
    requires BodiesOf(fragments, rank) != []
    ensures
      var now := SplitOn(Folded(changelog, fragments).value, '\n');
      var entries := SplitOn(JoinWith(BodiesOf(fragments, rank), "\n\n"), '\n');
      && k < i < |now| && now[k] == "## [Unreleased]" && "## [Unreleased]" !in now[..k]
      && ReadsAs(now[i], SECTIONS[rank]) && [""] + entries <= now[i + 1..]
      && (forall x :: k < x <= i ==> !("## " <= now[x]))
      && (forall x :: k < x < i ==> !ReadsAs(now[x], SECTIONS[rank]))
  {
    hide SplitOn, JoinWith, Folds, HeadsGrow, Older, AllClean, BodiesOf, IndexOf, ReadsAs, IsRelease, BodyIn, Folded;
    FoldReadsBack(changelog, fragments, rank);
    var was, now := SplitOn(changelog, '\n'), SplitOn(Folded(changelog, fragments).value, '\n');
    k := IndexOf(was, UNRELEASED);
    var rest := now[k + 1..];
    FoldLeads(was[k + 1..], rest, fragments, rank);
    var at := BodyStands(rest, -1, rank);
    i := k + 1 + at;
    assert rest[at + 1..] == now[i + 1..];
    forall x | k < x <= i ensures !("## " <= now[x]) && (x < i ==> !ReadsAs(now[x], SECTIONS[rank])) {
      assert now[x] == rest[x - (k + 1)];
      ReleaseIsPrefix(now[x]);
    }
    assert now[..k] == now[..k + 1][..k] && was[..k] == was[..k + 1][..k] && now[k] == now[..k + 1][k];
  }

  lemma {:induction false} FoldLeads(rest: seq<string>, now: seq<string>, fragments: seq<Fragment>, rank: nat)
    requires Folds(rest, now, fragments, 0, rank) && BodiesOf(fragments, rank) != []
    ensures BodyIn(now, -1, rank).Some? && [""] + EntriesOf(fragments, rank) <= BodyIn(now, -1, rank).value
  {
    hide BodyIn, EntriesOf, BodiesOf, Older, UpToHeading, Survives, Pads;
  }
}
