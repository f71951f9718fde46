// Insertions into one section merge, and insertions into two commute.

module ChangelogLaws {
  import opened Chars
  import opened ExecutionMode
  import opened Changelog

  // A line no search stops at.
  predicate Passes(line: string) {
    SectionOf(line).None? && !EndsGroup(line)
  }

  // What a parsed fragment's entries are, as lines.
  predicate Clean(entries: seq<string>) {
    entries != [] && !Blank(entries[|entries| - 1]) && forall line <- entries :: Passes(line)
  }

  // A heading is one to six hashes with whitespace behind them.
  lemma {:induction false} HeadingIsHashes(line: string)
    ensures
      IsHeading(line) <==>
      exists n :: 1 <= n <= 6 && n < |line| && line[..n] == "######"[..n] && IsSpace(line[n])
  {
    hide IsSpace;
    HashesRun(line);
    var run := HashRun(line);
    assert forall i :: 0 <= i < run ==> line[i] == '#';
    if IsHeading(line) {
      assert line[..run] == "######"[..run];
    }
    if exists n :: 1 <= n <= 6 && n < |line| && line[..n] == "######"[..n] && IsSpace(line[n]) {
      var n :| 1 <= n <= 6 && n < |line| && line[..n] == "######"[..n] && IsSpace(line[n]);
      assert forall i :: 0 <= i < n ==> line[i] == line[..n][i] == "######"[..n][i];
      HashIsNoSpace();
      RunOfHashes(line, n);
    }
  }

  lemma {:induction false} RunOfHashes(line: string, n: nat)
    requires n < |line| && line[n] != '#' && forall i :: 0 <= i < n ==> line[i] == '#'
    ensures HashRun(line) == n
    decreases n
  {
    if n > 0 {
      RunOfHashes(line[1..], n - 1);
    }
  }

  lemma {:induction false} HashIsNoSpace()
    ensures !IsSpace('#')
  {
  }

  lemma {:induction false} HashesRun(line: string)
    ensures forall i :: 0 <= i < HashRun(line) ==> line[i] == '#'
    ensures HashRun(line) < |line| ==> line[HashRun(line)] != '#'
  {
    if line != "" && line[0] == '#' {
      HashesRun(line[1..]);
    }
  }

  lemma {:induction false} RankOfSection(rank: nat, from: nat)
    requires from <= rank < |SECTIONS|
    ensures RankOf(SECTIONS[rank], from) == Some(rank)
    decreases rank - from
  {
    if from < rank {
      assert SECTIONS[from] != SECTIONS[rank] by {
        assert SECTIONS[from][0] != SECTIONS[rank][0] || |SECTIONS[from]| != |SECTIONS[rank]|;
      }
      RankOfSection(rank, from + 1);
    }
  }

  lemma {:induction false} HeadingReads(rank: nat)
    requires rank < |SECTIONS|
    ensures SectionOf(HeadingOf(rank)) == Some(rank)
    ensures !EndsGroup(HeadingOf(rank)) && !Blank(HeadingOf(rank))
  {
    hide RankOf, Strip, EndsGroup, Blank;
    NameIsStripped(rank);
    RankOfSection(rank, 0);
    HashLine(SECTIONS[rank]);
  }

  lemma {:induction false} HashLine(name: string)
    ensures
      var line := "### " + name;
      line[4..] == name && StartsWith(line, "### ") && !EndsGroup(line) && !Blank(line)
  {
    var line := "### " + name;
    assert line[0] == '#' && line[2] == '#' && line[0] in line;
  }

  lemma {:induction false} NameIsStripped(rank: nat)
    requires rank < |SECTIONS|
    ensures Strip(SECTIONS[rank]) == SECTIONS[rank]
  {
    var name := SECTIONS[rank];
    assert name != "" && !IsSpace(name[0]) && !IsSpace(name[|name| - 1]);
    assert SkipSpaces(name) == name && DropLastSpaces(name) == name;
  }

  function Last(above: string, lines: seq<string>): string {
    if lines == [] then above else lines[|lines| - 1]
  }

  lemma {:induction false} PassLines(
    above: string, lines: seq<string>, rest: seq<string>, previous: int, rank: nat, entries: seq<string>)
    requires rank < |SECTIONS| && forall line <- lines :: Passes(line)
    ensures
      Place(above, lines + rest, previous, rank, entries) ==
      lines + Place(Last(above, lines), rest, previous, rank, entries)
    decreases |lines|
  {
    hide SectionOf, EndsGroup, NewSection, Under;
    if lines == [] {
      assert lines + rest == rest;
    } else {
      assert (lines + rest)[1..] == lines[1..] + rest;
      assert Passes(lines[0]);
      PassLines(lines[0], lines[1..], rest, previous, rank, entries);
    }
  }

  lemma {:induction false} PassHeading(
    above: string, here: nat, rest: seq<string>, previous: int, rank: nat, entries: seq<string>)
    requires previous < here < rank < |SECTIONS|
    ensures
      Place(above, [HeadingOf(here)] + rest, previous, rank, entries) ==
      [HeadingOf(here)] + Place(HeadingOf(here), rest, here, rank, entries)
  {
    hide SectionOf, EndsGroup, NewSection, Under, HeadingOf, Blank;
    HeadingReads(here);
    assert ([HeadingOf(here)] + rest)[1..] == rest;
  }

  lemma {:induction false} StopAtHeading(
    above: string, here: nat, rest: seq<string>, previous: int, rank: nat, entries: seq<string>)
    requires rank < here < |SECTIONS|
    ensures
      Place(above, [HeadingOf(here)] + rest, previous, rank, entries) ==
      NewSection(above, rank, entries) + ([HeadingOf(here)] + rest)
  {
    hide SectionOf, EndsGroup, NewSection, Under, HeadingOf, Blank;
    HeadingReads(here);
  }

  lemma {:induction false} EmptyPasses()
    ensures Passes("") && Blank("")
  {
  }

  lemma {:induction false} PassGap(
    above: string, rest: seq<string>, previous: int, rank: nat, entries: seq<string>)
    requires rank < |SECTIONS|
    ensures
      var gap := Gap(!Blank(above));
      Place(above, gap + rest, previous, rank, entries) ==
      gap + Place(Last(above, gap), rest, previous, rank, entries) && Blank(Last(above, gap))
  {
    EmptyPasses();
    PassLines(above, Gap(!Blank(above)), rest, previous, rank, entries);
  }

  // Another section's place lies below one made earlier in the order.
  lemma {:induction false} Regroup<T>(a: seq<T>, b: seq<T>, c: seq<T>, d: seq<T>)
    ensures (a + (b + c)) + d == a + (b + (c + d))
  {
  }

  lemma {:induction false} NewSectionIs(above: string, rank: nat, entries: seq<string>)
    requires rank < |SECTIONS|
    ensures
      NewSection(above, rank, entries) ==
      Gap(!Blank(above)) + ([HeadingOf(rank)] + ([""] + entries + [""]))
  {
    hide HeadingOf, Blank;
  }

  lemma {:induction false} PassNew(
    above: string, here: nat, added: seq<string>, rest: seq<string>, previous: int, rank: nat, entries: seq<string>)
    requires previous < here < rank < |SECTIONS| && forall line <- added :: Passes(line)
    ensures
      Place(above, NewSection(above, here, added) + rest, previous, rank, entries) ==
      NewSection(above, here, added) + Place("", rest, here, rank, entries)
  {
    EmptyPasses();
    var gap, heading, body := Gap(!Blank(above)), HeadingOf(here), [""] + added + [""];
    assert forall line <- body :: Passes(line);
    assert Last(heading, body) == "";
    hide *;
    NewSectionIs(above, here, added);
    Regroup(gap, [heading], body, rest);
    PassGap(above, [heading] + (body + rest), previous, rank, entries);
    PassHeading(Last(above, gap), here, body + rest, previous, rank, entries);
    PassLines(heading, body, rest, here, rank, entries);
    Regroup(gap, [heading], body, Place("", rest, here, rank, entries));
  }

  // ... and above one made later in it.
  lemma {:induction false} StopAtNew(
    above: string, here: nat, added: seq<string>, rest: seq<string>, previous: int, rank: nat, entries: seq<string>)
    requires rank < here < |SECTIONS|
    ensures
      Place(above, NewSection(above, here, added) + rest, previous, rank, entries) ==
      NewSection(above, rank, entries) + (NewSection("", here, added) + rest)
  {
    var gap, heading, body := Gap(!Blank(above)), HeadingOf(here), [""] + added + [""];
    EmptyPasses();
    assert Gap(!Blank("")) + ([heading] + body) == [heading] + body;
    hide *;
    var last := Last(above, gap);
    NewSectionIs(above, here, added);
    NewSectionIs("", here, added);
    Regroup(gap, [heading], body, rest);
    Regroup([], [heading], body, rest);
    PassGap(above, [heading] + (body + rest), previous, rank, entries);
    StopAtHeading(last, here, body + rest, previous, rank, entries);
    GapThenNew(above, rank, entries);
    Rejoin(gap, NewSection(last, rank, entries), [heading] + (body + rest));
    Rejoin([heading], body, rest);
  }

  lemma {:induction false} Rejoin<T>(a: seq<T>, b: seq<T>, c: seq<T>)
    ensures a + (b + c) == (a + b) + c
  {
  }

  lemma {:induction false} GapThenNew(above: string, rank: nat, entries: seq<string>)
    requires rank < |SECTIONS|
    ensures
      var gap := Gap(!Blank(above));
      gap + NewSection(Last(above, gap), rank, entries) == NewSection(above, rank, entries)
  {
    EmptyPasses();
    var gap := Gap(!Blank(above));
    NewSectionIs(above, rank, entries);
    NewSectionIs(Last(above, gap), rank, entries);
    hide HeadingOf, NewSection, Blank;
  }

  // ----- two insertions into one section -----

  lemma {:induction false} Merge(
    above: string, rest: seq<string>, previous: int, rank: nat, first: seq<string>, second: seq<string>)
    requires previous < rank < |SECTIONS|
    ensures
      Place(above, Place(above, rest, previous, rank, first), previous, rank, second) ==
      Place(above, rest, previous, rank, second + [""] + first)
    decreases |rest|
  {
    hide SectionOf, EndsGroup, HeadingOf, NewSection, Under;
    if rest == [] || EndsGroup(rest[0]) {
      MergeNew(above, rest, previous, rank, first, second);
    } else {
      match SectionOf(rest[0])
      case None => {
        Merge(rest[0], rest[1..], previous, rank, first, second);
      }
      case Some(here) => {
        if here == rank {
          MergeUnder(rest[1..], first, second);
        } else if Stops(previous, here, rank) {
          MergeNew(above, rest, previous, rank, first, second);
        } else {
          Merge(rest[0], rest[1..], here, rank, first, second);
        }
      }
    }
  }

  lemma {:induction false} MergeUnder(rest: seq<string>, first: seq<string>, second: seq<string>)
    ensures Under(second, Under(first, rest)) == Under(second + [""] + first, rest)
  {
    UnderAgain(first, second, Gap(rest != [] && !Blank(rest[0])), rest);
  }

  lemma {:induction false} MergeNew(
    above: string, rest: seq<string>, previous: int, rank: nat, first: seq<string>, second: seq<string>)
    requires previous < rank < |SECTIONS|
    ensures
      Place(above, NewSection(above, rank, first) + rest, previous, rank, second) ==
      NewSection(above, rank, second + [""] + first) + rest
  {
    var gap, heading, body := Gap(!Blank(above)), HeadingOf(rank), [""] + first + [""];
    var both := [""] + (second + [""] + first) + [""];
    AtHeading(Last(above, gap), rank, body + rest, previous, second);
    UnderAgain(first, second, [""], rest);
    hide *;
    NewSectionIs(above, rank, first);
    NewSectionIs(above, rank, second + [""] + first);
    Regroup(gap, [heading], body, rest);
    PassGap(above, [heading] + (body + rest), previous, rank, second);
    Regroup(gap, [heading], both, rest);
  }

  // Entries put above others that start with their blank line.
  lemma {:induction false} UnderAgain(first: seq<string>, second: seq<string>, gap: seq<string>, rest: seq<string>)
    ensures Under(second, ([""] + first + gap) + rest) == ([""] + (second + [""] + first) + gap) + rest
  {
    EmptyPasses();
    hide Blank;
    var below := [""] + first + gap + rest;
    assert below[0] == "";
    Spread([""], second, [""], first, gap, rest);
  }

  lemma {:induction false} Spread<T>(a: seq<T>, b: seq<T>, c: seq<T>, d: seq<T>, e: seq<T>, f: seq<T>)
    ensures a + b + [] + ((c + d + e) + f) == (a + (b + c + d) + e) + f
  {
  }

  lemma {:induction false} AtHeading(
    above: string, rank: nat, rest: seq<string>, previous: int, entries: seq<string>)
    requires previous < rank < |SECTIONS|
    ensures
      Place(above, [HeadingOf(rank)] + rest, previous, rank, entries) ==
      [HeadingOf(rank)] + Under(entries, rest)
  {
    HeadingReads(rank);
    hide SectionOf, EndsGroup, NewSection, Under, HeadingOf;
    assert ([HeadingOf(rank)] + rest)[1..] == rest;
  }

  // ----- insertions into two sections -----

  lemma {:induction false} UnderIs(entries: seq<string>, rest: seq<string>)
    ensures Under(entries, rest) == ([""] + entries + Gap(rest != [] && !Blank(rest[0]))) + rest
  {
  }

  // What lies below a heading reads the same after entries were put under it.
  lemma {:induction false} CommuteUnder(
    heading: string, rest: seq<string>, here: nat, added: seq<string>, rank: nat, entries: seq<string>)
    requires here < rank < |SECTIONS| && Clean(added) && !Blank(heading)
    ensures
      Place(heading, Under(added, rest), here, rank, entries) ==
      Under(added, Place(heading, rest, here, rank, entries))
  {
    hide *;
    var gap := Gap(rest != [] && !Blank(rest[0]));
    var lines := [""] + added + gap;
    var last, placed := Last(heading, lines), Place(heading, rest, here, rank, entries);
    CleanLines(heading, rest, added);
    UnderIs(added, rest);
    PassLines(heading, lines, rest, here, rank, entries);
    UnderEither(heading, last, rest, here, rank, entries);
    UnderIs(added, placed);
    Rejoin([""] + added, gap, Place(last, rest, here, rank, entries));
    Rejoin([""] + added, Gap(placed != [] && !Blank(placed[0])), placed);
  }

  lemma {:induction false} CleanLines(heading: string, rest: seq<string>, added: seq<string>)
    requires Clean(added)
    ensures
      var lines := [""] + added + Gap(rest != [] && !Blank(rest[0]));
      && (forall line <- lines :: Passes(line))
      && (Blank(Last(heading, lines)) <==> rest != [] && !Blank(rest[0]))
  {
    EmptyPasses();
    hide Passes, Blank;
  }

  lemma {:induction false} UnderEither(
    heading: string, last: string, rest: seq<string>, here: nat, rank: nat, entries: seq<string>)
    requires here < rank < |SECTIONS| && !Blank(heading)
    requires Blank(last) <==> rest != [] && !Blank(rest[0])
    ensures
      var placed := Place(heading, rest, here, rank, entries);
      Gap(rest != [] && !Blank(rest[0])) + Place(last, rest, here, rank, entries) ==
      Gap(placed != [] && !Blank(placed[0])) + placed
  {
    EmptyPasses();
    NewSectionIs(heading, rank, entries);
    NewSectionIs(last, rank, entries);
    if rest != [] && Blank(rest[0]) {
      BlankPasses(rest[0]);
    }
    hide Under, NewSection, HeadingOf, SectionOf, EndsGroup, Blank;
    var body := [HeadingOf(rank)] + ([""] + entries + [""]);
    Rejoin([""], body, rest);
  }

  lemma {:induction false} BlankPasses(line: string)
    requires Blank(line)
    ensures Passes(line)
  {
    assert line != "" ==> line[0] in line;
  }

  lemma {:induction false} Commute(
    above: string, rest: seq<string>, previous: int,
    low: nat, added: seq<string>, high: nat, entries: seq<string>)
    requires previous < low < high < |SECTIONS| && Clean(added)
    ensures
      Place(above, Place(above, rest, previous, low, added), previous, high, entries) ==
      Place(above, Place(above, rest, previous, high, entries), previous, low, added)
    decreases |rest|
  {
    hide SectionOf, EndsGroup, HeadingOf, NewSection, Under, Passes, Blank;
    if rest == [] || EndsGroup(rest[0]) {
      CommuteStopped(above, rest, previous, low, added, high, entries);
    } else {
      match SectionOf(rest[0])
      case None => {
        Commute(rest[0], rest[1..], previous, low, added, high, entries);
      }
      case Some(here) => {
        if here == low {
          SectionIsNotBlank(rest[0]);
          CommuteUnder(rest[0], rest[1..], low, added, high, entries);
        } else if Stops(previous, here, low) {
          CommuteStopped(above, rest, previous, low, added, high, entries);
        } else {
          Commute(rest[0], rest[1..], here, low, added, high, entries);
        }
      }
    }
  }

  lemma {:induction false} SectionIsNotBlank(line: string)
    requires SectionOf(line).Some?
    ensures !Blank(line)
  {
    hide RankOf, Strip;
    assert line[..4] == "### ";
    assert line[0] == '#' && line[0] in line;
  }

  // The search for the lower section stops at once.
  lemma {:induction false} CommuteStopped(
    above: string, rest: seq<string>, previous: int,
    low: nat, added: seq<string>, high: nat, entries: seq<string>)
    requires previous < low < high < |SECTIONS| && Clean(added)
    requires
      rest == [] || EndsGroup(rest[0]) ||
      (SectionOf(rest[0]).Some? && SectionOf(rest[0]).value != low
       && Stops(previous, SectionOf(rest[0]).value, low))
    ensures
      Place(above, Place(above, rest, previous, low, added), previous, high, entries) ==
      Place(above, Place(above, rest, previous, high, entries), previous, low, added)
  {
    PassNew(above, low, added, rest, previous, high, entries);
    hide SectionOf, EndsGroup, HeadingOf, Passes, Under, NewSection;
    assert Place(above, rest, previous, low, added) == NewSection(above, low, added) + rest;
    if rest != [] && !EndsGroup(rest[0])
       && (SectionOf(rest[0]).value == high || !Stops(previous, SectionOf(rest[0]).value, high)) {
      assert Place(above, rest, previous, high, entries)[0] == rest[0];
    } else {
      StopAtNew(above, high, entries, rest, previous, low, added);
    }
  }

  // An entry that held a heading would break it: this is why parsing refuses one.
  lemma {:induction false} HeadingInAnEntryBreaksIt(low: nat, high: nat, line: string, entries: seq<string>)
    requires low < high < |SECTIONS| && Passes(line)
    ensures
      var added := [line, HeadingOf(high)];
      |Place("", Place("", [], -1, low, added), -1, high, entries)| <
      |Place("", Place("", [], -1, high, entries), -1, low, added)|
  {
    var added, rest := [line, HeadingOf(high)], [""];
    var below := ["", line] + ([HeadingOf(high)] + rest);
    EmptyPasses();
    NewSectionIs("", low, added);
    NewSectionIs("", high, entries);
    hide HeadingOf, SectionOf, EndsGroup, NewSection;
    assert Place("", [], -1, low, added) == [HeadingOf(low)] + below;
    PassHeading("", low, below, -1, high, entries);
    PassLines(HeadingOf(low), ["", line], [HeadingOf(high)] + rest, low, high, entries);
    AtHeading(line, high, rest, low, entries);
    assert Place("", [], -1, high, entries) == NewSection("", high, entries) + [];
    StopAtNew("", high, entries, [], -1, low, added);
    hide Place;
  }
}
