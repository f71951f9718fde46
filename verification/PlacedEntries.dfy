// Where an insertion splices, and where the newest group ends, said of the
// lines: the first line that starts a release or breaks the sections' order.

module PlacedEntries {
  import opened Chars
  import opened ExecutionMode
  import opened Splitter
  import opened LexerLaws
  import opened Changelog
  import opened ChangelogLaws
  import opened ChangelogFold
  import opened ChangelogReading
  import opened FoldedText

  // ----- reading the order -----

  predicate ReadsRank(line: string, rank: nat) {
    rank < |SECTIONS| && ReadsAs(line, SECTIONS[rank])
  }

  predicate ReadsAbove(rest: seq<string>, j: nat, least: nat)
    requires j <= |rest|
  {
    exists i, rank :: 0 <= i < j && least <= rank < |SECTIONS| && ReadsRank(rest[i], rank)
  }

  // A section at `j` that breaks the order: past `most`, or not after every
  // section above it and `previous`.
  predicate BreaksOrder(rest: seq<string>, previous: int, j: nat, most: nat)
    requires j < |rest|
  {
    exists rank :: 0 <= rank < |SECTIONS| && ReadsRank(rest[j], rank)
      && (rank >= most || rank <= previous || ReadsAbove(rest, j, rank))
  }

  predicate StopsAt(rest: seq<string>, previous: int, j: nat, most: nat)
    requires j < |rest|
  {
    "## " <= rest[j] || BreaksOrder(rest, previous, j, most)
  }

  // The first line that starts a release or breaks the order, or the end.
  predicate FirstStop(rest: seq<string>, previous: int, at: nat, most: nat) {
    && at <= |rest|
    && (at < |rest| ==> StopsAt(rest, previous, at, most))
    && forall j: nat :: j < at ==> !StopsAt(rest, previous, j, most)
  }

  lemma {:induction false} ReadsOne(line: string)
    ensures forall rank: nat :: ReadsRank(line, rank) <==> SectionOf(line) == Some(rank)
  {
    hide ReadsAs, SectionOf;
    forall rank: nat ensures ReadsRank(line, rank) <==> SectionOf(line) == Some(rank) {
      if rank < |SECTIONS| {
        SectionReads(line, rank);
      } else {
        SectionIsBelow(line);
      }
    }
  }

  lemma {:induction false} SectionIsBelow(line: string)
    ensures SectionOf(line).Some? ==> SectionOf(line).value < |SECTIONS|
  {
    if "### " <= line {
      RankIsItsName(Strip(line[4..]), 0);
    }
  }

  // The first line stops when it starts a release, or its section is past
  // `most` or not after `previous`.
  lemma {:induction false} StopsFirst(rest: seq<string>, previous: int, most: nat)
    requires rest != []
    ensures
      StopsAt(rest, previous, 0, most) <==>
      EndsGroup(rest[0])
      || (SectionOf(rest[0]).Some? && (SectionOf(rest[0]).value >= most || SectionOf(rest[0]).value <= previous))
  {
    hide ReadsRank, SectionOf;
    ReadsOne(rest[0]);
    SectionIsBelow(rest[0]);
    assert !ReadsAbove(rest, 0, 0) && forall rank: nat :: !ReadsAbove(rest, 0, rank);
    if SectionOf(rest[0]).Some? {
      assert ReadsRank(rest[0], SectionOf(rest[0]).value);
    }
  }

  function Latest(line: string, previous: int): int {
    if SectionOf(line).Some? then SectionOf(line).value else previous
  }

  lemma {:induction false} AboveTail(rest: seq<string>, j: nat, least: nat)
    requires 0 < j <= |rest|
    ensures
      ReadsAbove(rest, j, least) <==>
      ReadsAbove(rest[1..], j - 1, least) || (SectionOf(rest[0]).Some? && least <= SectionOf(rest[0]).value)
  {
    hide ReadsRank, SectionOf;
    ReadsOne(rest[0]);
    SectionIsBelow(rest[0]);
    assert forall i :: 1 <= i < |rest| ==> rest[i] == rest[1..][i - 1];
    if ReadsAbove(rest[1..], j - 1, least) {
      var i, rank :| 0 <= i < j - 1 && least <= rank < |SECTIONS| && ReadsRank(rest[1..][i], rank);
      assert ReadsRank(rest[i + 1], rank);
    }
    if SectionOf(rest[0]).Some? && least <= SectionOf(rest[0]).value {
      assert ReadsRank(rest[0], SectionOf(rest[0]).value);
    }
  }

  // Past a first line that does not stop, the rest stops where it did.
  lemma {:induction false} StopsTail(rest: seq<string>, previous: int, j: nat, most: nat)
    requires 0 < j < |rest| && !StopsAt(rest, previous, 0, most)
    ensures StopsAt(rest, previous, j, most) <==> StopsAt(rest[1..], Latest(rest[0], previous), j - 1, most)
  {
    hide ReadsRank, SectionOf, ReadsAbove;
    StopsFirst(rest, previous, most);
    var latest := Latest(rest[0], previous);
    assert rest[1..][j - 1] == rest[j];
    forall rank: nat
      ensures
        rank <= previous || ReadsAbove(rest, j, rank) <==> rank <= latest || ReadsAbove(rest[1..], j - 1, rank)
    {
      AboveTail(rest, j, rank);
    }
  }

  lemma {:induction false} StopTail(rest: seq<string>, previous: int, at: nat, most: nat)
    requires FirstStop(rest, previous, at, most)
    requires rest != [] && !StopsAt(rest, previous, 0, most)
    ensures at > 0 && FirstStop(rest[1..], Latest(rest[0], previous), at - 1, most)
  {
    hide StopsAt, Latest;
    forall j: nat | 0 < j < |rest|
      ensures StopsAt(rest, previous, j, most) <==> StopsAt(rest[1..], Latest(rest[0], previous), j - 1, most)
    {
      StopsTail(rest, previous, j, most);
    }
    forall j: nat | j < at - 1 ensures !StopsAt(rest[1..], Latest(rest[0], previous), j, most) {
      assert !StopsAt(rest, previous, j + 1, most);
    }
  }

  // ----- where an insertion splices -----

  // What the lines below `above` become: spliced at `at`.
  function Spliced(above: string, rest: seq<string>, at: nat, rank: nat, entries: seq<string>): seq<string>
    requires at <= |rest| && rank < |SECTIONS|
  {
    if at < |rest| && SectionOf(rest[at]) == Some(rank) then rest[..at + 1] + Under(entries, rest[at + 1..])
    else rest[..at] + NewSection(if at == 0 then above else rest[at - 1], rank, entries) + rest[at..]
  }

  lemma {:induction false} SplicedTail(above: string, rest: seq<string>, at: nat, rank: nat, entries: seq<string>)
    requires 0 < at <= |rest| && rank < |SECTIONS|
    ensures Spliced(above, rest, at, rank, entries) == [rest[0]] + Spliced(rest[0], rest[1..], at - 1, rank, entries)
  {
    hide SectionOf, Under, NewSection;
    var tail := rest[1..];
    if at < |rest| && SectionOf(rest[at]) == Some(rank) {
      HeadCut(rest, at + 1);
      Regrouped([rest[0]], tail[..at], Under(entries, tail[at..]), []);
    } else {
      HeadCut(rest, at);
      var made := NewSection(rest[at - 1], rank, entries);
      Regrouped([rest[0]], tail[..at - 1], made, rest[at..]);
    }
  }

  lemma {:induction false} HeadCut<T>(rest: seq<T>, n: nat)
    requires 0 < n <= |rest|
    ensures rest[..n] == [rest[0]] + rest[1..][..n - 1] && rest[n..] == rest[1..][n - 1..]
  {
    assert forall i :: 0 < i < |rest| ==> rest[i] == rest[1..][i - 1];
  }

  lemma {:induction false} Regrouped<T>(a: seq<T>, b: seq<T>, c: seq<T>, d: seq<T>)
    ensures (a + b) + c + d == a + (b + c + d)
    ensures d == [] ==> (a + b) + c == a + (b + c)
  {
  }

  lemma {:induction false} PlaceSplices(
    above: string, rest: seq<string>, previous: int, rank: nat, entries: seq<string>, at: nat)
    requires rank < |SECTIONS| && previous < rank && FirstStop(rest, previous, at, rank)
    ensures Place(above, rest, previous, rank, entries) == Spliced(above, rest, at, rank, entries)
    decreases |rest|
  {
    hide SectionOf, Under, NewSection, StopsAt, EndsGroup;
    if rest == [] {
      SplicedHere(above, rest, rank, entries);
    } else {
      StopsFirst(rest, previous, rank);
      if StopsAt(rest, previous, 0, rank) {
        assert at == 0;
        SplicedHere(above, rest, rank, entries);
        ReleaseReadsNothing(rest[0]);
      } else {
        StopTail(rest, previous, at, rank);
        SplicedTail(above, rest, at, rank, entries);
        PlaceSplices(rest[0], rest[1..], Latest(rest[0], previous), rank, entries, at - 1);
      }
    }
  }

  lemma {:induction false} ReleaseReadsNothing(line: string)
    ensures EndsGroup(line) ==> SectionOf(line).None?
  {
    if "### " <= line {
      assert line[2] == '#';
    }
  }

  lemma {:induction false} SplicedHere(above: string, rest: seq<string>, rank: nat, entries: seq<string>)
    requires rank < |SECTIONS|
    ensures
      Spliced(above, rest, 0, rank, entries) ==
      if rest != [] && SectionOf(rest[0]) == Some(rank) then [rest[0]] + Under(entries, rest[1..])
      else NewSection(above, rank, entries) + rest
  {
    hide SectionOf, Under, NewSection;
    var made := NewSection(above, rank, entries);
    assert rest[..0] + made + rest[0..] == made + rest;
    if rest != [] {
      assert rest[..1] == [rest[0]];
    }
  }

  // An insertion splices at the first line below the unreleased heading that
  // starts a release or a section at or past this one's place or an older
  // group: behind that line when it is the section's own heading, and before it,
  // under a heading of its own, otherwise.
  lemma {:induction false} InsertionIsASplice(
    lines: seq<string>, k: nat, at: nat, rank: nat, entries: seq<string>)
    requires k < at <= |lines| && rank < |SECTIONS|
    requires lines[k] == "## [Unreleased]" && "## [Unreleased]" !in lines[..k]
    requires FirstStop(lines[k + 1..], -1, at - (k + 1), rank)
    ensures
      Inserted(lines, rank, entries) ==
      if at < |lines| && ReadsAs(lines[at], SECTIONS[rank]) then
        lines[..at + 1] + [""] + entries
        + (if at + 1 < |lines| && !Blank(lines[at + 1]) then [""] else []) + lines[at + 1..]
      else
        lines[..at] + (if Blank(lines[at - 1]) then [] else [""])
        + ["### " + SECTIONS[rank], ""] + entries + [""] + lines[at..]
  {
    hide Place, FirstStop, Blank, ReadsAs, SectionOf;
    FirstIndex(lines, UNRELEASED, k);
    var rest := lines[k + 1..];
    PlaceSplices(lines[k], rest, -1, rank, entries, at - (k + 1));
    SplicedBelow(lines, k, at, rank, entries);
    if at < |lines| {
      SectionReads(lines[at], rank);
    }
    if at < |lines| && SectionOf(lines[at]) == Some(rank) {
      UnderIs(lines, at, entries);
    } else {
      NewSectionIs(lines, at, rank, entries);
    }
  }

  lemma {:induction false} SplicedBelow(lines: seq<string>, k: nat, at: nat, rank: nat, entries: seq<string>)
    requires k < at <= |lines| && rank < |SECTIONS|
    ensures
      lines[..k + 1] + Spliced(lines[k], lines[k + 1..], at - (k + 1), rank, entries) ==
      if at < |lines| && SectionOf(lines[at]) == Some(rank) then
        lines[..at + 1] + Under(entries, lines[at + 1..])
      else
        lines[..at] + NewSection(lines[at - 1], rank, entries) + lines[at..]
  {
    hide SectionOf, Under, NewSection;
    var rest, n := lines[k + 1..], at - (k + 1);
    assert lines[..k + 1] + rest[..n] == lines[..at] && rest[n..] == lines[at..];
    assert n > 0 ==> rest[n - 1] == lines[at - 1];
    if at < |lines| {
      assert rest[n] == lines[at] && rest[n + 1..] == lines[at + 1..];
      assert lines[..k + 1] + rest[..n + 1] == lines[..at + 1];
    }
  }

  lemma {:induction false} UnderIs(lines: seq<string>, at: nat, entries: seq<string>)
    requires at < |lines|
    ensures
      lines[..at + 1] + Under(entries, lines[at + 1..]) ==
      lines[..at + 1] + [""] + entries
      + (if at + 1 < |lines| && !Blank(lines[at + 1]) then [""] else []) + lines[at + 1..]
  {
    hide Blank;
    assert at + 1 < |lines| ==> lines[at + 1..][0] == lines[at + 1];
  }

  lemma {:induction false} NewSectionIs(lines: seq<string>, at: nat, rank: nat, entries: seq<string>)
    requires 0 < at <= |lines| && rank < |SECTIONS|
    ensures
      lines[..at] + NewSection(lines[at - 1], rank, entries) + lines[at..] ==
      lines[..at] + (if Blank(lines[at - 1]) then [] else [""])
      + ["### " + SECTIONS[rank], ""] + entries + [""] + lines[at..]
  {
    hide Blank;
  }

  // ----- where the newest group ends -----

  lemma {:induction false} OlderStarts(rest: seq<string>, previous: int, at: nat)
    requires FirstStop(rest, previous, at, |SECTIONS|)
    ensures Older(rest, previous) == rest[at..]
    decreases |rest|
  {
    hide SectionOf, StopsAt, EndsGroup;
    if rest != [] {
      StopsFirst(rest, previous, |SECTIONS|);
      SectionIsBelow(rest[0]);
      if !StopsAt(rest, previous, 0, |SECTIONS|) {
        StopTail(rest, previous, at, |SECTIONS|);
        OlderStarts(rest[1..], Latest(rest[0], previous), at - 1);
        assert rest[1..][at - 1..] == rest[at..];
      }
    }
  }

  lemma {:induction false} SomeStop(rest: seq<string>, previous: int, most: nat) returns (at: nat)
    ensures FirstStop(rest, previous, at, most)
  {
    hide StopsAt;
    at := 0;
    while at < |rest| && !StopsAt(rest, previous, at, most)
      invariant at <= |rest| && forall j: nat :: j < at ==> !StopsAt(rest, previous, j, most)
    {
      at := at + 1;
    }
  }

  // A fold keeps every line from the end of the newest group on, and what it put
  // above them leaves that group ending there.
  lemma {:induction false} FoldKeepsOlderGroups(changelog: string, fragments: seq<Fragment>, k: nat, j: nat)
    requires AllClean(fragments) && Folded(changelog, fragments).Some?
    requires
      var was := SplitOn(changelog, '\n');
      && k < j <= |was| && was[k] == "## [Unreleased]" && "## [Unreleased]" !in was[..k]
      && FirstStop(was[k + 1..], -1, j - (k + 1), |SECTIONS|)
    ensures
      var was, now := SplitOn(changelog, '\n'), SplitOn(Folded(changelog, fragments).value, '\n');
      var m := |now| - (|was| - j);
      && k < m && now[..k + 1] == was[..k + 1] && now[m..] == was[j..]
      && FirstStop(now[k + 1..], -1, m - (k + 1), |SECTIONS|)
  {
    hide *;
    var was, now := SplitOn(changelog, '\n'), SplitOn(Folded(changelog, fragments).value, '\n');
    FoldIsBelowHeading(changelog, fragments, k);
    var rest := now[k + 1..];
    OlderStarts(was[k + 1..], -1, j - (k + 1));
    var end := SomeStop(rest, -1, |SECTIONS|);
    OlderStarts(rest, -1, end);
    StopIsWithin(rest, end);
    SameEnd(was, now, k, j, end);
  }

  lemma {:induction false} FoldIsBelowHeading(changelog: string, fragments: seq<Fragment>, k: nat)
    requires AllClean(fragments) && Folded(changelog, fragments).Some?
    requires
      var was := SplitOn(changelog, '\n');
      k < |was| && was[k] == "## [Unreleased]" && "## [Unreleased]" !in was[..k]
    ensures
      var was, now := SplitOn(changelog, '\n'), SplitOn(Folded(changelog, fragments).value, '\n');
      && k < |now| && now[..k + 1] == was[..k + 1]
      && Older(now[k + 1..], -1) == Older(was[k + 1..], -1)
  {
    hide SplitOn, Folded, AllClean, HeadsGrow, IndexOf, Folds, Older;
    var was, now := SplitOn(changelog, '\n'), SplitOn(Folded(changelog, fragments).value, '\n');
    FoldReadsBack(changelog, fragments, 0);
    FirstIndex(was, UNRELEASED, k);
    FoldIsOlder(was[k + 1..], now[k + 1..], fragments);
  }

  lemma {:induction false} SameEnd(was: seq<string>, now: seq<string>, k: nat, j: nat, end: nat)
    requires k < j <= |was| && k + 1 + end <= |now|
    requires now[k + 1..][end..] == was[k + 1..][j - (k + 1)..]
    ensures |now| - (|was| - j) == k + 1 + end && now[k + 1 + end..] == was[j..]
  {
    assert was[k + 1..][j - (k + 1)..] == was[j..];
    assert now[k + 1..][end..] == now[k + 1 + end..];
  }

  lemma {:induction false} StopIsWithin(rest: seq<string>, end: nat)
    requires FirstStop(rest, -1, end, |SECTIONS|)
    ensures end <= |rest|
  {
    hide StopsAt;
  }

  lemma {:induction false} FoldIsOlder(rest: seq<string>, now: seq<string>, fragments: seq<Fragment>)
    requires Folds(rest, now, fragments, 0, 0)
    ensures Older(now, -1) == Older(rest, -1)
  {
    hide Older, Survives, Pads, UpToHeading, BodyIn;
  }
}
