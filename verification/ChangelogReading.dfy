// What a folded changelog reads as: its newest group holds the fragments'
// entries ahead of what was there, and nothing else has moved.

module ChangelogReading {
  import opened Chars
  import opened Splitter
  import opened Joining
  import opened LexerLaws
  import opened Changelog
  import opened ChangelogLaws
  import opened ChangelogFold

  // ----- reading the newest group -----

  // The lines up to the next section heading or release.
  function UpToHeading(rest: seq<string>): seq<string> {
    if rest == [] || !Passes(rest[0]) then [] else [rest[0]] + UpToHeading(rest[1..])
  }

  // The body of one section of the group whose headings follow `previous`.
  function BodyIn(rest: seq<string>, previous: int, rank: nat): Option<seq<string>> {
    if rest == [] || EndsGroup(rest[0]) then None
    else
      match SectionOf(rest[0])
      case None => BodyIn(rest[1..], previous, rank)
      case Some(here) =>
        if here <= previous then None
        else if here == rank then Some(UpToHeading(rest[1..]))
        else BodyIn(rest[1..], here, rank)
  }

  // The lines from the end of that group on: older groups and releases.
  function Older(rest: seq<string>, previous: int): (older: seq<string>)
    ensures |older| <= |rest| && older == rest[|rest| - |older|..]
  {
    if rest == [] || EndsGroup(rest[0]) then rest
    else
      match SectionOf(rest[0])
      case None => Older(rest[1..], previous)
      case Some(here) => if here <= previous then rest else Older(rest[1..], here)
  }

  // The sections whose headings stand among `lines`, one by one.
  function Headings(lines: seq<string>): seq<nat> {
    if lines == [] then []
    else
      (match SectionOf(lines[0])
       case None => []
       case Some(here) => [here])
      + Headings(lines[1..])
  }

  // The lines of the newest group, where the older ones start with `older`.
  function Newest(rest: seq<string>, older: seq<string>): seq<string> {
    if |older| <= |rest| then rest[..|rest| - |older|] else []
  }

  // ----- what an insertion may change -----

  // Nothing but empty lines after what was there.
  predicate Pads(was: seq<string>, now: seq<string>) {
    was <= now && forall line <- now[|was|..] :: line == ""
  }

  // The entries, then what was there, with empty lines set around them.
  predicate Leads(entries: seq<string>, was: seq<string>, now: seq<string>) {
    && [""] + entries <= now
    && (Pads(was, now[1 + |entries|..]) || Pads([""] + was, now[1 + |entries|..]))
  }

  function OrNothing(body: Option<seq<string>>): seq<string> {
    if body.None? then [] else body.value
  }

  // How a section reads once `entries` were put under it.
  predicate Gains(entries: seq<string>, was: Option<seq<string>>, now: Option<seq<string>>) {
    now.Some? && Leads(entries, OrNothing(was), now.value)
  }

  predicate Stays(was: Option<seq<string>>, now: Option<seq<string>>) {
    was.Some? == now.Some? && Pads(OrNothing(was), OrNothing(now))
  }

  lemma {:induction false} PadsTwice(was: seq<string>, between: seq<string>, now: seq<string>)
    requires Pads(was, between) && Pads(between, now)
    ensures Pads(was, now)
  {
    assert now[|was|..] == between[|was|..] + now[|between|..];
  }

  lemma {:induction false} LeadsThenPads(
    entries: seq<string>, was: seq<string>, between: seq<string>, now: seq<string>)
    requires Leads(entries, was, between) && Pads(between, now)
    ensures Leads(entries, was, now)
  {
    var n := 1 + |entries|;
    assert Pads(between[n..], now[n..]) by {
      assert now[n..][|between[n..]|..] == now[|between|..];
    }
    if Pads(was, between[n..]) {
      PadsTwice(was, between[n..], now[n..]);
    } else {
      PadsTwice([""] + was, between[n..], now[n..]);
    }
  }

  lemma {:induction false} PadsThenLeads(
    entries: seq<string>, was: seq<string>, between: seq<string>, now: seq<string>)
    requires Pads(was, between) && Leads(entries, between, now)
    ensures Leads(entries, was, now)
  {
    var more := now[1 + |entries|..];
    if Pads(between, more) {
      PadsTwice(was, between, more);
    } else {
      assert Pads([""] + was, [""] + between) by {
        assert ([""] + between)[|was| + 1..] == between[|was|..];
      }
      PadsTwice([""] + was, [""] + between, more);
    }
  }

  // ----- one insertion -----

  lemma {:induction false} ReadPast(lines: seq<string>, rest: seq<string>, previous: int, rank: nat)
    requires forall line <- lines :: Passes(line)
    ensures UpToHeading(lines + rest) == lines + UpToHeading(rest)
    ensures BodyIn(lines + rest, previous, rank) == BodyIn(rest, previous, rank)
    ensures Older(lines + rest, previous) == Older(rest, previous)
    decreases |lines|
  {
    hide SectionOf, EndsGroup;
    if lines == [] {
      assert lines + rest == rest;
    } else {
      assert (lines + rest)[1..] == lines[1..] + rest;
      ReadPast(lines[1..], rest, previous, rank);
    }
  }

  // What reading the lines `rest`, with `placed` in their stead, comes to.
  ghost predicate Reads(
    rest: seq<string>, placed: seq<string>, previous: int, rank: nat, entries: seq<string>, other: nat)
  {
    && Older(placed, previous) == Older(rest, previous)
    && Pads(UpToHeading(rest), UpToHeading(placed))
    && Gains(entries, BodyIn(rest, previous, rank), BodyIn(placed, previous, rank))
    && (other != rank ==> Stays(BodyIn(rest, previous, other), BodyIn(placed, previous, other)))
  }

  lemma {:induction false} PlaceReads(
    above: string, rest: seq<string>, previous: int, rank: nat, entries: seq<string>, other: nat)
    requires previous < rank < |SECTIONS| && forall line <- entries :: Passes(line)
    ensures Reads(rest, Place(above, rest, previous, rank, entries), previous, rank, entries, other)
    decreases |rest|
  {
    hide SectionOf, EndsGroup, Under, NewSection, Gains, Stays, Pads;
    if rest == [] || EndsGroup(rest[0]) {
      NewSectionReads(above, rest, previous, rank, entries, other);
    } else {
      match SectionOf(rest[0])
      case None => {
        PlaceReads(rest[0], rest[1..], previous, rank, entries, other);
        PadsOneMore(rest[0], UpToHeading(rest[1..]), UpToHeading(Place(rest[0], rest[1..], previous, rank, entries)));
      }
      case Some(here) => {
        if here == rank {
          UnderReads(rest[0], rest[1..], previous, rank, entries, other);
        } else if Stops(previous, here, rank) {
          NewSectionReads(above, rest, previous, rank, entries, other);
        } else {
          PlaceReads(rest[0], rest[1..], here, rank, entries, other);
          StaysFromPads(UpToHeading(rest[1..]), UpToHeading(Place(rest[0], rest[1..], here, rank, entries)));
          PadsNothing([]);
        }
      }
    }
  }

  lemma {:induction false} PadsOneMore(line: string, was: seq<string>, now: seq<string>)
    requires Pads(was, now)
    ensures Pads([line] + was, [line] + now)
  {
    assert ([line] + now)[|was| + 1..] == now[|was|..];
  }

  lemma {:induction false} PadsNothing(lines: seq<string>)
    ensures Pads(lines, lines)
  {
  }

  lemma {:induction false} StaysFromPads(was: seq<string>, now: seq<string>)
    requires Pads(was, now)
    ensures Stays(Some(was), Some(now))
  {
  }

  lemma {:induction false} StaysSame(body: Option<seq<string>>)
    ensures Stays(body, body)
  {
  }

  lemma {:induction false} UnderReads(
    heading: string, rest: seq<string>, previous: int, rank: nat, entries: seq<string>, other: nat)
    requires SectionOf(heading) == Some(rank) && !EndsGroup(heading) && previous < rank
    requires forall line <- entries :: Passes(line)
    ensures Reads([heading] + rest, [heading] + Under(entries, rest), previous, rank, entries, other)
  {
    hide *;
    EmptyPasses();
    var gap := Gap(rest != [] && !Blank(rest[0]));
    var lines := [""] + entries + gap;
    UnderIs(entries, rest);
    GapIsEmpty(rest != [] && !Blank(rest[0]));
    ReadPast(lines, rest, rank, other);
    ReadHeading(heading, rest, previous, rank, other);
    ReadHeading(heading, lines + rest, previous, rank, other);
    EntriesLeadRest(entries, gap, UpToHeading(rest));
    StaysSame(BodyIn(rest, rank, other));
    PadsNothing([]);
    ReadsFrom([heading] + rest, [heading] + (lines + rest), previous, rank, entries, other);
  }

  lemma {:induction false} GapIsEmpty(needed: bool)
    ensures Gap(needed) == [] || Gap(needed) == [""]
  {
  }

  lemma {:induction false} EntriesLeadRest(entries: seq<string>, gap: seq<string>, was: seq<string>)
    requires gap == [] || gap == [""]
    ensures Gains(entries, Some(was), Some(([""] + entries + gap) + was))
  {
    var now := ([""] + entries + gap) + was;
    assert now[1 + |entries|..] == gap + was;
    PadsNothing(gap + was);
    assert [] + was == was;
  }

  lemma {:induction false} ReadsFrom(
    rest: seq<string>, placed: seq<string>, previous: int, rank: nat, entries: seq<string>, other: nat)
    requires Older(placed, previous) == Older(rest, previous)
    requires Pads(UpToHeading(rest), UpToHeading(placed))
    requires Gains(entries, BodyIn(rest, previous, rank), BodyIn(placed, previous, rank))
    requires other != rank ==> Stays(BodyIn(rest, previous, other), BodyIn(placed, previous, other))
    ensures Reads(rest, placed, previous, rank, entries, other)
  {
    hide Older, Pads, Gains, Stays, BodyIn, UpToHeading;
  }

  lemma {:induction false} NewSectionReads(
    above: string, rest: seq<string>, previous: int, rank: nat, entries: seq<string>, other: nat)
    requires previous < rank < |SECTIONS| && forall line <- entries :: Passes(line)
    requires
      rest == [] || EndsGroup(rest[0]) ||
      (SectionOf(rest[0]).Some? && SectionOf(rest[0]).value != rank
       && Stops(previous, SectionOf(rest[0]).value, rank))
    ensures Reads(rest, NewSection(above, rank, entries) + rest, previous, rank, entries, other)
  {
    var gap, heading, body := Gap(!Blank(above)), HeadingOf(rank), [""] + entries + [""];
    assert (forall line <- gap :: Passes(line)) && Pads([], gap) by {
      EmptyPasses();
    }
    StopReads(rest, previous, rank, other);
    HeadingReads(rank);
    hide SectionOf, EndsGroup, HeadingOf, NewSection, Blank, Gap, Passes;
    hide Pads, BodyIn, Older, UpToHeading, Gains, Stays;
    NewSectionIs(above, rank, entries);
    Regroup(gap, [heading], body, rest);
    ReadPast(gap, [heading] + (body + rest), previous, rank);
    ReadPast(gap, [heading] + (body + rest), previous, other);
    HeadingThenReads(heading, rest, previous, rank, entries, other);
    assert gap + [] == gap;
    StaysSame(BodyIn(rest, previous, other));
  }

  // Where a search stops, the group reads the same whichever of the two
  // headings stands above.
  lemma {:induction false} StopReads(rest: seq<string>, previous: int, rank: nat, other: nat)
    requires previous < rank
    requires
      rest == [] || EndsGroup(rest[0]) ||
      (SectionOf(rest[0]).Some? && SectionOf(rest[0]).value != rank
       && Stops(previous, SectionOf(rest[0]).value, rank))
    ensures UpToHeading(rest) == [] && BodyIn(rest, previous, rank) == None
    ensures Older(rest, rank) == Older(rest, previous)
    ensures other != rank ==> BodyIn(rest, rank, other) == BodyIn(rest, previous, other)
  {
    hide SectionOf, EndsGroup;
    if rest != [] && !EndsGroup(rest[0]) && previous < SectionOf(rest[0]).value {
      AboveIsNot(rest[1..], SectionOf(rest[0]).value, rank);
    }
  }

  lemma {:induction false} AboveIsNot(rest: seq<string>, previous: int, rank: nat)
    requires rank <= previous
    ensures BodyIn(rest, previous, rank) == None
  {
    hide SectionOf, EndsGroup;
    if rest != [] && !EndsGroup(rest[0]) {
      var here := SectionOf(rest[0]);
      AboveIsNot(rest[1..], if here.Some? && here.value > previous then here.value else previous, rank);
    }
  }

  lemma {:induction false} HeadingThenReads(
    heading: string, rest: seq<string>, previous: int, rank: nat, entries: seq<string>, other: nat)
    requires SectionOf(heading) == Some(rank) && !EndsGroup(heading) && previous < rank
    requires UpToHeading(rest) == [] && forall line <- entries :: Passes(line)
    ensures
      var below := [heading] + (([""] + entries + [""]) + rest);
      && UpToHeading(below) == []
      && Older(below, previous) == Older(rest, rank)
      && Gains(entries, None, BodyIn(below, previous, rank))
      && (other != rank ==> BodyIn(below, previous, other) == BodyIn(rest, rank, other))
  {
    hide *;
    var body := [""] + entries + [""];
    EmptyPasses();
    ReadPast(body, rest, rank, other);
    ReadHeading(heading, body + rest, previous, rank, other);
    EntriesLead(entries);
  }

  lemma {:induction false} ReadHeading(heading: string, rest: seq<string>, previous: int, rank: nat, other: nat)
    requires SectionOf(heading) == Some(rank) && !EndsGroup(heading) && previous < rank
    ensures
      var below := [heading] + rest;
      && UpToHeading(below) == []
      && Older(below, previous) == Older(rest, rank)
      && BodyIn(below, previous, rank) == Some(UpToHeading(rest))
      && (other != rank ==> BodyIn(below, previous, other) == BodyIn(rest, rank, other))
  {
    hide SectionOf, EndsGroup;
    Tail(heading, rest);
  }

  lemma {:induction false} Tail<T>(head: T, tail: seq<T>)
    ensures ([head] + tail)[1..] == tail
  {
  }

  lemma {:induction false} EntriesLead(entries: seq<string>)
    ensures Gains(entries, None, Some([""] + entries + [""] + []))
  {
    var body := [""] + entries + [""] + [];
    assert body[1 + |entries|..] == [""];
  }

  // ----- the headings of the group -----

  // The sections of the group whose headings follow `previous`, in order.
  function Ranks(rest: seq<string>, previous: int): seq<nat> {
    if rest == [] || EndsGroup(rest[0]) then []
    else
      match SectionOf(rest[0])
      case None => Ranks(rest[1..], previous)
      case Some(here) => if here <= previous then [] else [here] + Ranks(rest[1..], here)
  }

  lemma {:induction false} RanksAreHeadings(rest: seq<string>, previous: int)
    ensures Headings(Newest(rest, Older(rest, previous))) == Ranks(rest, previous)
    decreases |rest|
  {
    hide SectionOf, EndsGroup;
    var older := Older(rest, previous);
    if rest != [] && older != rest {
      var here := SectionOf(rest[0]);
      var next := if here.Some? then here.value else previous;
      RanksAreHeadings(rest[1..], next);
      assert Older(rest[1..], next) == older;
      assert Newest(rest, older)[1..] == Newest(rest[1..], older);
    } else {
      assert Newest(rest, older) == [];
    }
  }

  // Above `previous`, in strictly increasing order.
  ghost predicate Climbs(ranks: seq<nat>, previous: int) {
    && (forall r <- ranks :: previous < r)
    && forall i, j :: 0 <= i < j < |ranks| ==> ranks[i] < ranks[j]
  }

  lemma {:induction false} RanksClimb(rest: seq<string>, previous: int)
    ensures Climbs(Ranks(rest, previous), previous)
  {
    hide SectionOf, EndsGroup;
    if rest != [] && !EndsGroup(rest[0]) {
      var here := SectionOf(rest[0]);
      if here.None? {
        RanksClimb(rest[1..], previous);
      } else if here.value > previous {
        RanksClimb(rest[1..], here.value);
        OneMoreClimbs(here.value, Ranks(rest[1..], here.value), previous);
      }
    }
  }

  lemma {:induction false} OneMoreClimbs(here: nat, ranks: seq<nat>, previous: int)
    requires Climbs(ranks, here) && previous < here
    ensures Climbs([here] + ranks, previous)
  {
    var all := [here] + ranks;
    assert forall i :: 1 <= i < |all| ==> all[i] == ranks[i - 1] && all[i] in ranks;
  }

  lemma {:induction false} RanksPast(lines: seq<string>, rest: seq<string>, previous: int)
    requires forall line <- lines :: Passes(line)
    ensures Ranks(lines + rest, previous) == Ranks(rest, previous)
    decreases |lines|
  {
    hide SectionOf, EndsGroup;
    if lines == [] {
      assert lines + rest == rest;
    } else {
      assert (lines + rest)[1..] == lines[1..] + rest && Passes(lines[0]);
      RanksPast(lines[1..], rest, previous);
    }
  }

  // The ranks `now` are the ranks `was` and `rank`.
  ghost predicate Joins(was: seq<nat>, now: seq<nat>, rank: nat) {
    forall r :: r in now <==> r in was || r == rank
  }

  lemma {:induction false} PlaceRanks(
    above: string, rest: seq<string>, previous: int, rank: nat, entries: seq<string>)
    requires previous < rank < |SECTIONS| && forall line <- entries :: Passes(line)
    ensures Joins(Ranks(rest, previous), Ranks(Place(above, rest, previous, rank, entries), previous), rank)
    decreases |rest|
  {
    hide SectionOf, EndsGroup, Under, NewSection;
    if rest == [] || EndsGroup(rest[0]) {
      NewSectionRanks(above, rest, previous, rank, entries);
    } else {
      match SectionOf(rest[0])
      case None => PlaceRanks(rest[0], rest[1..], previous, rank, entries);
      case Some(here) => {
        if here == rank {
          UnderRanks(rest[0], rest[1..], previous, rank, entries);
        } else if Stops(previous, here, rank) {
          NewSectionRanks(above, rest, previous, rank, entries);
        } else {
          PlaceRanks(rest[0], rest[1..], here, rank, entries);
        }
      }
    }
  }

  lemma {:induction false} UnderRanks(
    heading: string, rest: seq<string>, previous: int, rank: nat, entries: seq<string>)
    requires SectionOf(heading) == Some(rank) && !EndsGroup(heading) && previous < rank
    requires forall line <- entries :: Passes(line)
    ensures Joins(Ranks([heading] + rest, previous), Ranks([heading] + Under(entries, rest), previous), rank)
  {
    hide Passes, SectionOf, EndsGroup, Blank, Under;
    EmptyPasses();
    UnderIs(entries, rest);
    var lines := [""] + entries + Gap(rest != [] && !Blank(rest[0]));
    RanksPast(lines, rest, rank);
    Tail(heading, rest);
    Tail(heading, lines + rest);
  }

  lemma {:induction false} NewSectionRanks(
    above: string, rest: seq<string>, previous: int, rank: nat, entries: seq<string>)
    requires previous < rank < |SECTIONS| && forall line <- entries :: Passes(line)
    requires
      rest == [] || EndsGroup(rest[0]) ||
      (SectionOf(rest[0]).Some? && SectionOf(rest[0]).value != rank
       && Stops(previous, SectionOf(rest[0]).value, rank))
    ensures Joins(Ranks(rest, previous), Ranks(NewSection(above, rank, entries) + rest, previous), rank)
  {
    hide *;
    var gap, heading, body := Gap(!Blank(above)), HeadingOf(rank), [""] + entries + [""];
    EmptyPasses();
    GapIsEmpty(!Blank(above));
    HeadingReads(rank);
    NewSectionIs(above, rank, entries);
    Regroup(gap, [heading], body, rest);
    RanksPast(gap, [heading] + (body + rest), previous);
    RanksPast(body, rest, rank);
    HeadingRanks(heading, body + rest, previous, rank);
    StopRanks(rest, previous, rank);
  }

  lemma {:induction false} HeadingRanks(heading: string, rest: seq<string>, previous: int, rank: nat)
    requires SectionOf(heading) == Some(rank) && !EndsGroup(heading) && previous < rank
    ensures Ranks([heading] + rest, previous) == [rank] + Ranks(rest, rank)
  {
    hide SectionOf, EndsGroup;
    Tail(heading, rest);
  }

  lemma {:induction false} StopRanks(rest: seq<string>, previous: int, rank: nat)
    requires previous < rank
    requires
      rest == [] || EndsGroup(rest[0]) ||
      (SectionOf(rest[0]).Some? && SectionOf(rest[0]).value != rank
       && Stops(previous, SectionOf(rest[0]).value, rank))
    ensures Joins(Ranks(rest, previous), [rank] + Ranks(rest, rank), rank)
  {
    hide SectionOf, EndsGroup;
  }

  // The group after a fold holds the old sections and the folded ones.
  lemma {:induction false} FoldRanks(above: string, rest: seq<string>, fragments: seq<Fragment>, rank: nat, r: nat)
    requires rank <= |SECTIONS| && AllClean(fragments) && r < |SECTIONS|
    ensures
      r in Ranks(FoldBelow(above, rest, fragments, rank), -1) <==>
      r in Ranks(rest, -1) || (rank <= r && BodiesOf(fragments, r) != [])
    decreases |SECTIONS| - rank
  {
    hide Place, Ranks, BodiesOf, EntriesOf, AllClean;
    if rank < |SECTIONS| {
      if BodiesOf(fragments, rank) == [] {
        FoldRanks(above, rest, fragments, rank + 1, r);
      } else {
        EntriesAreClean(fragments, rank);
        PlaceRanks(above, rest, -1, rank, EntriesOf(fragments, rank));
        FoldRanks(above, Place(above, rest, -1, rank, EntriesOf(fragments, rank)), fragments, rank + 1, r);
      }
    }
  }

  // The headings above `older` are those that stood there and the folded
  // sections', each once and in the order of the sections.
  ghost predicate HeadsGrow(
    rest: seq<string>, now: seq<string>, older: seq<string>, fragments: seq<Fragment>)
  {
    var was, heads := Headings(Newest(rest, older)), Headings(Newest(now, older));
    && (forall i, j :: 0 <= i < j < |heads| ==> heads[i] < heads[j])
    && forall r: nat :: r < |SECTIONS| ==> (r in heads <==> r in was || BodiesOf(fragments, r) != [])
  }

  lemma {:induction false} FoldHeads(above: string, rest: seq<string>, fragments: seq<Fragment>)
    requires AllClean(fragments)
    ensures HeadsGrow(rest, FoldBelow(above, rest, fragments, 0), Older(rest, -1), fragments)
  {
    hide BodiesOf, FoldBelow, Older, Ranks, Newest, AllClean, Headings;
    var now := FoldBelow(above, rest, fragments, 0);
    FoldReads(above, rest, fragments, 0, 0);
    RanksAreHeadings(rest, -1);
    RanksAreHeadings(now, -1);
    RanksClimb(now, -1);
    forall r: nat | r < |SECTIONS|
      ensures r in Ranks(now, -1) <==> r in Ranks(rest, -1) || BodiesOf(fragments, r) != []
    {
      FoldRanks(above, rest, fragments, 0, r);
    }
  }

  // ----- every line survives, in order -----

  ghost predicate Survives<T>(was: seq<T>, now: seq<T>) {
    || was == []
    || (now != []
        && ((was[0] == now[0] && Survives(was[1..], now[1..])) || Survives(was, now[1..])))
  }

  lemma {:induction false} SurvivesAfter<T>(added: seq<T>, was: seq<T>, now: seq<T>)
    requires Survives(was, now)
    ensures Survives(was, added + now)
    decreases |added|
  {
    if added == [] {
      assert added + now == now;
    } else {
      SurvivesAfter(added[1..], was, now);
      assert (added + now)[1..] == added[1..] + now;
    }
  }

  lemma {:induction false} SurvivesItself<T>(lines: seq<T>)
    ensures Survives(lines, lines)
  {
    if lines != [] {
      SurvivesItself(lines[1..]);
    }
  }

  lemma {:induction false} SurvivesTwice<T>(was: seq<T>, between: seq<T>, now: seq<T>)
    requires Survives(was, between) && Survives(between, now)
    ensures Survives(was, now)
    decreases |now|
  {
    if was != [] {
      if between[0] == now[0] && Survives(between[1..], now[1..]) {
        if was[0] == between[0] && Survives(was[1..], between[1..]) {
          SurvivesTwice(was[1..], between[1..], now[1..]);
        } else {
          SurvivesTwice(was, between[1..], now[1..]);
        }
      } else {
        SurvivesTwice(was, between, now[1..]);
      }
    }
  }

  lemma {:induction false} PlaceKeepsLines(
    above: string, rest: seq<string>, previous: int, rank: nat, entries: seq<string>)
    requires rank < |SECTIONS|
    ensures Survives(rest, Place(above, rest, previous, rank, entries))
    decreases |rest|
  {
    SurvivesItself(rest);
    hide SectionOf, EndsGroup, NewSection;
    SurvivesAfter(NewSection(above, rank, entries), rest, rest);
    if rest != [] && !EndsGroup(rest[0]) {
      var here := SectionOf(rest[0]);
      if here.None? {
        PlaceKeepsLines(rest[0], rest[1..], previous, rank, entries);
      } else if here.value == rank {
        SurvivesItself(rest[1..]);
        SurvivesAfter([""] + entries + Gap(rest[1..] != [] && !Blank(rest[1])), rest[1..], rest[1..]);
      } else if !Stops(previous, here.value, rank) {
        PlaceKeepsLines(rest[0], rest[1..], here.value, rank, entries);
      }
    }
  }

  // ----- a whole fold -----

  function FoldBelow(above: string, rest: seq<string>, fragments: seq<Fragment>, rank: nat): seq<string>
    requires rank <= |SECTIONS|
    decreases |SECTIONS| - rank
  {
    if rank == |SECTIONS| then rest
    else
      var next :=
        if BodiesOf(fragments, rank) == [] then rest
        else Place(above, rest, -1, rank, EntriesOf(fragments, rank));
      FoldBelow(above, next, fragments, rank + 1)
  }

  lemma {:induction false} FoldIsBelow(lines: seq<string>, fragments: seq<Fragment>, rank: nat)
    requires UNRELEASED in lines && rank <= |SECTIONS|
    ensures
      var k := IndexOf(lines, UNRELEASED);
      FoldFrom(lines, fragments, rank) == lines[..k + 1] + FoldBelow(lines[k], lines[k + 1..], fragments, rank)
    decreases |SECTIONS| - rank
  {
    hide Place, IndexOf, BodiesOf, EntriesOf, Inserted;
    var k := IndexOf(lines, UNRELEASED);
    if rank < |SECTIONS| {
      var next := FoldSection(lines, fragments, rank);
      FoldIsBelow(next, fragments, rank + 1);
      if BodiesOf(fragments, rank) != [] {
        InsertedBelow(lines, rank, EntriesOf(fragments, rank));
      }
    }
  }

  lemma {:induction false} InsertedBelow(lines: seq<string>, rank: nat, entries: seq<string>)
    requires UNRELEASED in lines && rank < |SECTIONS|
    ensures
      var k, next := IndexOf(lines, UNRELEASED), Inserted(lines, rank, entries);
      && k < |next| && IndexOf(next, UNRELEASED) == k
      && next[..k + 1] == lines[..k + 1] && next[k] == lines[k]
      && next[k + 1..] == Place(lines[k], lines[k + 1..], -1, rank, entries)
  {
    hide Place, IndexOf;
    var k := IndexOf(lines, UNRELEASED);
    IndexOfKept(lines, UNRELEASED, Place(lines[k], lines[k + 1..], -1, rank, entries));
  }

  // What a fold of the sections from `rank` on does to one section.
  ghost predicate Folds(rest: seq<string>, now: seq<string>, fragments: seq<Fragment>, rank: nat, other: nat) {
    && Older(now, -1) == Older(rest, -1)
    && Pads(UpToHeading(rest), UpToHeading(now))
    && Survives(rest, now)
    && if rank <= other && BodiesOf(fragments, other) != [] then
         Gains(EntriesOf(fragments, other), BodyIn(rest, -1, other), BodyIn(now, -1, other))
       else Stays(BodyIn(rest, -1, other), BodyIn(now, -1, other))
  }

  lemma {:induction false} FoldReads(
    above: string, rest: seq<string>, fragments: seq<Fragment>, rank: nat, other: nat)
    requires rank <= |SECTIONS| && other < |SECTIONS| && AllClean(fragments)
    ensures Folds(rest, FoldBelow(above, rest, fragments, rank), fragments, rank, other)
    decreases |SECTIONS| - rank
  {
    hide Place, UpToHeading, BodyIn, Older, BodiesOf, EntriesOf, Survives, Pads, Leads;
    if rank == |SECTIONS| {
      PadsNothing(UpToHeading(rest));
      PadsNothing(OrNothing(BodyIn(rest, -1, other)));
      SurvivesItself(rest);
    } else if BodiesOf(fragments, rank) == [] {
      FoldReads(above, rest, fragments, rank + 1, other);
    } else {
      var entries := EntriesOf(fragments, rank);
      EntriesAreClean(fragments, rank);
      var next := Place(above, rest, -1, rank, entries);
      PlaceReads(above, rest, -1, rank, entries, other);
      PlaceKeepsLines(above, rest, -1, rank, entries);
      FoldReads(above, next, fragments, rank + 1, other);
      ReadsThenFolds(rest, next, FoldBelow(above, next, fragments, rank + 1), fragments, rank, other);
    }
  }

  lemma {:induction false} ReadsThenFolds(
    rest: seq<string>, next: seq<string>, now: seq<string>, fragments: seq<Fragment>, rank: nat, other: nat)
    requires BodiesOf(fragments, rank) != [] && Reads(rest, next, -1, rank, EntriesOf(fragments, rank), other)
    requires Survives(rest, next) && Folds(next, now, fragments, rank + 1, other)
    ensures Folds(rest, now, fragments, rank, other)
  {
    hide UpToHeading, BodyIn, Older, BodiesOf, EntriesOf, Survives, Pads, Leads;
    PadsTwice(UpToHeading(rest), UpToHeading(next), UpToHeading(now));
    SurvivesTwice(rest, next, now);
    var was, between, after :=
      OrNothing(BodyIn(rest, -1, other)), OrNothing(BodyIn(next, -1, other)), OrNothing(BodyIn(now, -1, other));
    if other == rank {
      LeadsThenPads(EntriesOf(fragments, rank), was, between, after);
    } else if rank < other && BodiesOf(fragments, other) != [] {
      PadsThenLeads(EntriesOf(fragments, other), was, between, after);
    } else {
      PadsTwice(was, between, after);
    }
  }

  // Reading a folded changelog back, for any one section: the newest group
  // holds the fragments' entries, in order, ahead of the section's old body;
  // a section no fragment names reads as before; the group's headings are the
  // old ones and the folded sections', each once and in order; what stands above
  // the heading, the older groups and the releases are untouched, and no line is
  // lost.
  lemma {:induction false} FoldReadsBack(changelog: string, fragments: seq<Fragment>, rank: nat)
    requires AllClean(fragments) && rank < |SECTIONS|
    requires Folded(changelog, fragments).Some?
    ensures
      var was, now := SplitOn(changelog, '\n'), SplitOn(Folded(changelog, fragments).value, '\n');
      UNRELEASED in was &&
      var k := IndexOf(was, UNRELEASED);
      && k < |now| && now[..k + 1] == was[..k + 1]
      && Folds(was[k + 1..], now[k + 1..], fragments, 0, rank)
      && HeadsGrow(was[k + 1..], now[k + 1..], Older(was[k + 1..], -1), fragments)
  {
    hide SplitOn, FoldFrom, Folds, FoldBelow, JoinWith, IndexOf, AllClean, HeadsGrow, Older;
    var was := SplitOn(changelog, '\n');
    LinesHaveNoBreak(changelog);
    FoldOneLines(was, fragments, 0);
    var now := FoldFrom(was, fragments, 0);
    SplitJoined(now, '\n');
    FoldIsBelow(was, fragments, 0);
    var k := IndexOf(was, UNRELEASED);
    FoldReads(was[k], was[k + 1..], fragments, 0, rank);
    FoldHeads(was[k], was[k + 1..], fragments);
    assert now[k + 1..] == FoldBelow(was[k], was[k + 1..], fragments, 0);
  }

  lemma {:induction false} LinesHaveNoBreak(text: string)
    ensures forall line <- SplitOn(text, '\n') :: OneLine(line)
  {
  }
}
