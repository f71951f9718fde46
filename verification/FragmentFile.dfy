// A changelog fragment's file, read into its entries by section.

module FragmentFile {
  import opened Chars
  import opened Splitter
  import opened ExecutionMode
  import opened LexerLaws
  import opened Joining
  import opened Changelog
  import opened ChangelogLaws
  import opened ChangelogFold

  datatype Problem =
    | NotASection(at: nat)
    | SectionTwice(at: nat)
    | TextBeforeSections(at: nat)
    | NoSection
    | NoEntry(rank: nat)

  datatype Parsed = Fine(fragment: Fragment) | Refused(problem: Problem)

  // ----- lines of a file -----

  predicate EndsLine(c: char) {
    || '\n' <= c <= '\r'
    || '\U{1c}' <= c <= '\U{1e}'
    || c == '\U{85}' || c == '\U{2028}' || c == '\U{2029}'
  }

  // The lines as `str.splitlines` gives them.
  function SplitLines(text: string): (lines: seq<string>)
    ensures forall line <- lines, c <- line :: !EndsLine(c)
    decreases |text|
  {
    if text == "" then []
    else if EndsLine(text[0]) then
      [""] + SplitLines(text[if StartsWith(text, "\r\n") then 2 else 1..])
    else
      var rest := SplitLines(text[1..]);
      if rest == [] then [[text[0]]] else [[text[0]] + rest[0]] + rest[1..]
  }

  predicate IsLineEnd(end: string, rest: string) {
    || end == "\r\n"
    || (|end| == 1 && EndsLine(end[0]) && !(end == "\r" && rest != "" && rest[0] == '\n'))
  }

  // A file's first line is what stands before its first line end, a carriage
  // return and a line feed together being one, and the last needs none.
  lemma {:induction false} LinesAreSplit(line: string, end: string, rest: string)
    requires (forall c <- line :: !EndsLine(c)) && IsLineEnd(end, rest)
    ensures SplitLines(line + end + rest) == [line] + SplitLines(rest)
    ensures SplitLines(line) == if line == "" then [] else [line]
    decreases |line|
  {
    LastLine(line);
    var all := line + end + rest;
    if line == "" {
      hide EndsLine;
      assert all == end + rest && all[0] == end[0];
      assert EndsLine('\r') by {
        LineEnds();
      }
      assert |rest| > 0 && |end| == 1 ==> all[1] == rest[0];
      assert StartsWith(all, "\r\n") <==> end == "\r\n" by {
        assert |all| >= 2 ==> all[..2] == [all[0], all[1]];
      }
      assert all[|end|..] == rest;
    } else {
      assert line[0] in line && all[0] == line[0] && all[1..] == line[1..] + end + rest;
      LinesAreSplit(line[1..], end, rest);
      assert [line[0]] + line[1..] == line;
    }
  }

  lemma {:induction false} LastLine(line: string)
    requires forall c <- line :: !EndsLine(c)
    ensures SplitLines(line) == if line == "" then [] else [line]
  {
    hide EndsLine;
    if line != "" {
      assert line[0] in line;
      LastLine(line[1..]);
      var rest := SplitLines(line[1..]);
      assert [line[0]] + line[1..] == line;
      assert !EndsLine(line[0]);
      assert SplitLines(line) == if rest == [] then [[line[0]]] else [[line[0]] + rest[0]] + rest[1..];
      if rest == [] {
        assert [line[0]] == line;
      } else {
        assert [line] + rest[1..] == [line];
      }
    }
  }

  lemma {:induction false} LineEnds()
    ensures EndsLine('\r') && EndsLine('\n')
  {
  }

  // ----- what a file's lines mean -----

  // The lines up to the next heading.
  function BodyBelow(rest: seq<string>): seq<string> {
    if rest == [] || IsHeading(rest[0]) then [] else [rest[0]] + BodyBelow(rest[1..])
  }

  function DropBlanksBelow(lines: seq<string>): (r: seq<string>)
    ensures r <= lines && (r == [] || !Blank(r[|r| - 1]))
  {
    if lines == [] || !Blank(lines[|lines| - 1]) then lines else DropBlanksBelow(lines[..|lines| - 1])
  }

  function DropBlanksAbove(lines: seq<string>): (r: seq<string>)
    ensures |r| <= |lines| && r == lines[|lines| - |r|..]
  {
    if lines == [] || !Blank(lines[0]) then lines else DropBlanksAbove(lines[1..])
  }

  function Trimmed(lines: seq<string>): seq<string> {
    DropBlanksAbove(DropBlanksBelow(lines))
  }

  predicate OpensWithEntry(lines: seq<string>) {
    lines != [] && StartsWith(lines[0], "- ")
  }

  predicate HeadsAt(lines: seq<string>, k: nat, rank: nat) {
    k < |lines| && SectionOf(lines[k]) == Some(rank)
  }

  ghost predicate NoHeadingBetween(lines: seq<string>, from: nat, to: nat)
    requires to <= |lines|
  {
    forall k :: from <= k < to ==> !IsHeading(lines[k])
  }

  // What is wrong with line `k`, given the lines above it.
  ghost function LineFault(lines: seq<string>, k: nat): Option<Problem>
    requires k < |lines|
  {
    if IsHeading(lines[k]) then
      match SectionOf(lines[k])
      case None => Some(NotASection(k))
      case Some(rank) =>
        if exists j: nat :: j < k && HeadsAt(lines, j, rank) then Some(SectionTwice(k)) else None
    else if !Blank(lines[k]) && NoHeadingBetween(lines, 0, k) then Some(TextBeforeSections(k))
    else None
  }

  ghost predicate NoFaultBefore(lines: seq<string>, n: nat)
    requires n <= |lines|
  {
    forall k :: 0 <= k < n ==> LineFault(lines, k) == None
  }

  function EntryAt(lines: seq<string>, k: nat): seq<string>
    requires k < |lines|
  {
    Trimmed(BodyBelow(lines[k + 1..]))
  }

  ghost predicate ReadsAs(lines: seq<string>, fragment: Fragment) {
    && (forall rank <- fragment :: exists k: nat :: HeadsAt(lines, k, rank))
    && (forall k: nat, rank: nat ::
          HeadsAt(lines, k, rank) ==>
          rank in fragment && OpensWithEntry(EntryAt(lines, k))
          && fragment[rank] == JoinWith(EntryAt(lines, k), "\n"))
  }

  // Exactly one outcome fits a file: its entries, or what is first wrong with it.
  ghost predicate Fits(lines: seq<string>, parsed: Parsed) {
    match parsed
    case Fine(fragment) => NoFaultBefore(lines, |lines|) && fragment != map[] && ReadsAs(lines, fragment)
    case Refused(problem) =>
      match problem
      case NoSection => NoFaultBefore(lines, |lines|) && NoHeadingBetween(lines, 0, |lines|)
      case NoEntry(rank) =>
        NoFaultBefore(lines, |lines|)
        && exists k: nat :: HeadsAt(lines, k, rank) && !OpensWithEntry(EntryAt(lines, k))
      case _ =>
        problem.at < |lines| && LineFault(lines, problem.at) == Some(problem)
        && NoFaultBefore(lines, problem.at)
  }

  // ----- parsing -----

  // Once `n` lines are read: the bodies so far, in the order their headings
  // came, and the section being read.
  ghost predicate ReadTo(
    lines: seq<string>, n: nat, order: seq<nat>, bodies: map<nat, seq<string>>, section: Option<nat>)
    requires n <= |lines|
  {
    && NoFaultBefore(lines, n)
    && (forall rank :: rank in bodies <==> rank in order)
    && (forall rank <- bodies :: exists k: nat :: k < n && HeadsAt(lines, k, rank))
    && (forall k: nat, rank: nat :: k < n && HeadsAt(lines, k, rank) ==>
          rank in bodies && bodies[rank] == BodyBelow(lines[k + 1..n]))
    && (section == None <==> NoHeadingBetween(lines, 0, n))
    && (section.Some? ==>
          exists k: nat :: k < n && HeadsAt(lines, k, section.value) && NoHeadingBetween(lines, k + 1, n))
  }

  // Every section's body, once the file is read.
  ghost predicate BodiesAre(lines: seq<string>, order: seq<nat>, bodies: map<nat, seq<string>>) {
    && NoFaultBefore(lines, |lines|)
    && (forall rank :: rank in bodies <==> rank in order)
    && (forall rank <- bodies :: exists k: nat :: HeadsAt(lines, k, rank))
    && (forall k: nat, rank: nat :: HeadsAt(lines, k, rank) ==>
          rank in bodies && bodies[rank] == BodyBelow(lines[k + 1..]))
  }

  ghost predicate EntriesTo(order: seq<nat>, n: nat, bodies: map<nat, seq<string>>, fragment: Fragment)
    requires n <= |order| && forall rank <- order :: rank in bodies
  {
    && (forall rank :: rank in fragment <==> rank in order[..n])
    && (forall rank <- fragment ::
          rank in bodies && OpensWithEntry(Trimmed(bodies[rank]))
          && fragment[rank] == JoinWith(Trimmed(bodies[rank]), "\n"))
  }

  method Parse(text: string) returns (parsed: Parsed)
    ensures Fits(SplitLines(text), parsed)
  {
    hide *;
    var lines := SplitLines(text);
    var order: seq<nat>, bodies: map<nat, seq<string>>, section: Option<nat> := [], map[], None;
    NothingRead(lines);
    for n := 0 to |lines|
      invariant ReadTo(lines, n, order, bodies, section)
    {
      var line := lines[n];
      LineRead(lines, n, order, bodies, section);
      if IsHeading(line) {
        section := SectionOf(line);
        if section.None? {
          return Refused(NotASection(n));
        }
        var rank := section.value;
        if rank in bodies {
          return Refused(SectionTwice(n));
        }
        order, bodies := order + [rank], bodies[rank := []];
      } else if section.Some? {
        bodies := bodies[section.value := bodies[section.value] + [line]];
      } else if !Blank(line) {
        return Refused(TextBeforeSections(n));
      }
    }
    AllRead(lines, order, bodies, section);
    if bodies == map[] {
      return Refused(NoSection);
    }
    var fragment: Fragment := map[];
    NoEntriesYet(lines, order, bodies);
    for n := 0 to |order|
      invariant EntriesTo(order, n, bodies, fragment)
    {
      var rank := order[n];
      var kept := Trim(bodies[rank]);
      EntryRead(lines, order, n, bodies, fragment);
      if kept == [] || !StartsWith(kept[0], "- ") {
        return Refused(NoEntry(rank));
      }
      fragment := fragment[rank := JoinWith(kept, "\n")];
    }
    AllEntries(lines, order, bodies, fragment);
    return Fine(fragment);
  }

  method Trim(lines: seq<string>) returns (kept: seq<string>)
    ensures kept == Trimmed(lines)
  {
    kept := lines;
    while kept != [] && Blank(kept[|kept| - 1])
      invariant DropBlanksBelow(kept) == DropBlanksBelow(lines)
      decreases |kept|
    {
      kept := kept[..|kept| - 1];
    }
    while kept != [] && Blank(kept[0])
      invariant DropBlanksAbove(kept) == Trimmed(lines)
      decreases |kept|
    {
      kept := kept[1..];
    }
  }

  lemma {:induction false} NothingRead(lines: seq<string>)
    ensures ReadTo(lines, 0, [], map[], None)
  {
    hide HeadsAt, LineFault;
  }

  lemma {:induction false} SectionIsHeading(line: string)
    requires SectionOf(line).Some?
    ensures IsHeading(line)
  {
    hide RankOf, Strip, HashRun;
    assert line[..4] == "### ";
    assert line[0] == line[1] == line[2] == '#' && line[3] == ' ';
    RunOf(line[3..], 0);
    RunOf(line[2..], 1);
    RunOf(line[1..], 2);
    RunOf(line, 3);
  }

  lemma {:induction false} RunOf(line: string, run: nat)
    requires line != ""
    requires if line[0] == '#' then run > 0 && HashRun(line[1..]) == run - 1 else run == 0
    ensures HashRun(line) == run
  {
  }


  // A line past a heading changes no body above it; any other joins the body
  // that is open.
  lemma {:induction false} BodyWithLine(rest: seq<string>, line: string)
    ensures
      BodyBelow(rest + [line]) ==
      if NoHeadingBetween(rest, 0, |rest|) && !IsHeading(line) then BodyBelow(rest) + [line] else BodyBelow(rest)
  {
    hide IsHeading;
    if rest == [] {
      assert rest + [line] == [line] && [line][1..] == [];
    } else if !IsHeading(rest[0]) {
      BodyWithLine(rest[1..], line);
      assert (rest + [line])[1..] == rest[1..] + [line];
      assert NoHeadingBetween(rest, 1, |rest|) ==> NoHeadingBetween(rest[1..], 0, |rest| - 1);
      assert NoHeadingBetween(rest[1..], 0, |rest| - 1) ==>
          forall k :: 1 <= k < |rest| ==> rest[k] == rest[1..][k - 1];
    }
  }

  lemma {:induction false} LineRead(
    lines: seq<string>, n: nat, order: seq<nat>, bodies: map<nat, seq<string>>, section: Option<nat>)
    requires n < |lines| && ReadTo(lines, n, order, bodies, section)
    ensures
      if IsHeading(lines[n]) then
        match SectionOf(lines[n])
        case None => Fits(lines, Refused(NotASection(n)))
        case Some(rank) =>
          if rank in bodies then Fits(lines, Refused(SectionTwice(n)))
          else ReadTo(lines, n + 1, order + [rank], bodies[rank := []], Some(rank))
      else if section.Some? then
        section.value in bodies
        && ReadTo(lines, n + 1, order, bodies[section.value := bodies[section.value] + [lines[n]]], section)
      else if !Blank(lines[n]) then Fits(lines, Refused(TextBeforeSections(n)))
      else ReadTo(lines, n + 1, order, bodies, section)
  {
    hide NoFaultBefore, IsHeading, SectionOf, Blank;
    if IsHeading(lines[n]) {
      var rank := SectionOf(lines[n]);
      if rank.Some? && rank.value !in bodies {
        HeadingRead(lines, n, order, bodies, section);
      }
    } else if section.Some? {
      EntryLineRead(lines, n, order, bodies, section);
    } else if Blank(lines[n]) {
      EarlyBlankRead(lines, n, order, bodies);
    }
    hide BodyBelow;
  }

  lemma {:induction false} HeadingsAre(lines: seq<string>)
    ensures forall k: nat, rank: nat :: HeadsAt(lines, k, rank) ==> IsHeading(lines[k])
  {
    forall k: nat, rank: nat | HeadsAt(lines, k, rank) ensures IsHeading(lines[k]) {
      SectionIsHeading(lines[k]);
    }
  }

  lemma {:induction false} BodyGrows(lines: seq<string>, k: nat, n: nat)
    requires k < n < |lines|
    ensures
      BodyBelow(lines[k + 1..n + 1]) ==
      if NoHeadingBetween(lines, k + 1, n + 1) then BodyBelow(lines[k + 1..n]) + [lines[n]]
      else BodyBelow(lines[k + 1..n])
  {
    hide IsHeading, BodyBelow;
    var rest := lines[k + 1..n];
    assert lines[k + 1..n + 1] == rest + [lines[n]];
    BodyWithLine(rest, lines[n]);
    assert NoHeadingBetween(rest, 0, |rest|) <==> NoHeadingBetween(lines, k + 1, n) by {
      assert forall i :: 0 <= i < |rest| ==> rest[i] == lines[k + 1 + i];
      assert forall i :: k + 1 <= i < n ==> lines[i] == rest[i - k - 1];
    }
  }

  // A heading seen for the first time, or a line under one, is no fault.
  lemma {:induction false} FaultlessLine(lines: seq<string>, n: nat)
    requires n < |lines| && NoFaultBefore(lines, n) && LineFault(lines, n) == None
    ensures NoFaultBefore(lines, n + 1)
  {
    hide LineFault;
  }

  lemma {:induction false} HeadingIsNew(lines: seq<string>, n: nat, bodies: map<nat, seq<string>>)
    requires n < |lines| && NoFaultBefore(lines, n)
    requires forall k: nat, rank: nat :: k < n && HeadsAt(lines, k, rank) ==> rank in bodies
    requires IsHeading(lines[n]) && SectionOf(lines[n]).Some? && SectionOf(lines[n]).value !in bodies
    ensures NoFaultBefore(lines, n + 1) && !NoHeadingBetween(lines, 0, n + 1)
    ensures forall rank: nat :: HeadsAt(lines, n, rank) <==> rank == SectionOf(lines[n]).value
  {
    hide SectionOf, IsHeading;
    FaultlessLine(lines, n);
  }

  lemma {:induction false} HeadingRead(
    lines: seq<string>, n: nat, order: seq<nat>, bodies: map<nat, seq<string>>, section: Option<nat>)
    requires n < |lines| && ReadTo(lines, n, order, bodies, section)
    requires IsHeading(lines[n]) && SectionOf(lines[n]).Some? && SectionOf(lines[n]).value !in bodies
    ensures
      var rank := SectionOf(lines[n]).value;
      ReadTo(lines, n + 1, order + [rank], bodies[rank := []], Some(rank))
  {
    hide NoFaultBefore, SectionOf, IsHeading, HeadsAt, BodyBelow, LineFault;
    var rank := SectionOf(lines[n]).value;
    HeadingIsNew(lines, n, bodies);
    assert HeadsAt(lines, n, rank) && NoHeadingBetween(lines, n + 1, n + 1);
    forall k: nat, other: nat | k < n && HeadsAt(lines, k, other)
      ensures BodyBelow(lines[k + 1..n + 1]) == BodyBelow(lines[k + 1..n])
    {
      BodyGrows(lines, k, n);
    }
    NothingBelow(lines, n);
  }

  lemma {:induction false} NothingBelow(lines: seq<string>, n: nat)
    requires n < |lines|
    ensures BodyBelow(lines[n + 1..n + 1]) == []
  {
  }

  lemma {:induction false} EntryLineRead(
    lines: seq<string>, n: nat, order: seq<nat>, bodies: map<nat, seq<string>>, section: Option<nat>)
    requires n < |lines| && ReadTo(lines, n, order, bodies, section)
    requires !IsHeading(lines[n]) && section.Some?
    ensures
      section.value in bodies
      && ReadTo(lines, n + 1, order, bodies[section.value := bodies[section.value] + [lines[n]]], section)
  {
    hide NoFaultBefore, SectionOf, IsHeading, HeadsAt, BodyBelow, LineFault;
    var rank := section.value;
    var top: nat :| top < n && HeadsAt(lines, top, rank) && NoHeadingBetween(lines, top + 1, n);
    TopIsHeading(lines, n, top, rank);
    forall k: nat, other: nat | k < n && HeadsAt(lines, k, other)
      ensures BodyBelow(lines[k + 1..n + 1]) ==
        if other == rank then BodyBelow(lines[k + 1..n]) + [lines[n]] else BodyBelow(lines[k + 1..n])
    {
      BodyGrows(lines, k, n);
      OpenSection(lines, n, top, rank, k, other);
    }
    assert NoHeadingBetween(lines, top + 1, n + 1);
  }

  lemma {:induction false} NotASectionHere(lines: seq<string>, n: nat)
    requires n < |lines| && !IsHeading(lines[n])
    ensures forall rank: nat :: !HeadsAt(lines, n, rank)
  {
    if SectionOf(lines[n]).Some? {
      SectionIsHeading(lines[n]);
    }
  }

  lemma {:induction false} TopIsHeading(lines: seq<string>, n: nat, top: nat, rank: nat)
    requires top < n < |lines| && HeadsAt(lines, top, rank) && !IsHeading(lines[n]) && NoFaultBefore(lines, n)
    ensures NoFaultBefore(lines, n + 1) && !NoHeadingBetween(lines, 0, n + 1)
    ensures forall other: nat :: !HeadsAt(lines, n, other)
  {
    SectionIsHeading(lines[top]);
    NotASectionHere(lines, n);
    hide SectionOf, IsHeading, Blank;
    FaultlessLine(lines, n);
  }

  // Of all sections above, the one being read is the one with no heading below.
  lemma {:induction false} OpenSection(lines: seq<string>, n: nat, top: nat, rank: nat, k: nat, other: nat)
    requires n < |lines| && NoFaultBefore(lines, n) && !IsHeading(lines[n])
    requires top < n && HeadsAt(lines, top, rank) && NoHeadingBetween(lines, top + 1, n)
    requires k < n && HeadsAt(lines, k, other)
    ensures NoHeadingBetween(lines, k + 1, n + 1) <==> other == rank
  {
    hide HashRun, SectionOf, IsHeading, Blank;
    HeadsAreHeadings(lines, top, rank);
    HeadsAreHeadings(lines, k, other);
    assert LineFault(lines, top) == None;
    if k < top && other == rank {
      assert false;
    }
    if k == top {
      assert other == rank;
    }
  }

  lemma {:induction false} HeadsAreHeadings(lines: seq<string>, k: nat, rank: nat)
    requires HeadsAt(lines, k, rank)
    ensures IsHeading(lines[k])
  {
    SectionIsHeading(lines[k]);
  }

  lemma {:induction false} EarlyBlankRead(
    lines: seq<string>, n: nat, order: seq<nat>, bodies: map<nat, seq<string>>)
    requires n < |lines| && ReadTo(lines, n, order, bodies, None)
    requires !IsHeading(lines[n]) && Blank(lines[n])
    ensures ReadTo(lines, n + 1, order, bodies, None)
  {
    hide NoFaultBefore, LineFault, SectionOf, IsHeading, Blank, BodyBelow, HeadsAt;
    HeadingsAre(lines);
    NotASectionHere(lines, n);
    BlankIsNoFault(lines, n);
  }

  lemma {:induction false} BlankIsNoFault(lines: seq<string>, n: nat)
    requires n < |lines| && NoFaultBefore(lines, n) && !IsHeading(lines[n]) && Blank(lines[n])
    ensures NoFaultBefore(lines, n + 1)
  {
    hide IsHeading, Blank;
    FaultlessLine(lines, n);
  }

  lemma {:induction false} AllRead(
    lines: seq<string>, order: seq<nat>, bodies: map<nat, seq<string>>, section: Option<nat>)
    requires ReadTo(lines, |lines|, order, bodies, section)
    ensures BodiesAre(lines, order, bodies)
    ensures bodies == map[] ==> Fits(lines, Refused(NoSection))
  {
    hide LineFault, IsHeading, SectionOf, BodyBelow;
    forall k: nat, rank: nat | HeadsAt(lines, k, rank)
      ensures rank in bodies && bodies[rank] == BodyBelow(lines[k + 1..])
    {
      assert lines[k + 1..|lines|] == lines[k + 1..];
    }
  }

  lemma {:induction false} NoEntriesYet(lines: seq<string>, order: seq<nat>, bodies: map<nat, seq<string>>)
    requires BodiesAre(lines, order, bodies)
    ensures forall rank <- order :: rank in bodies
    ensures EntriesTo(order, 0, bodies, map[])
  {
  }

  lemma {:induction false} EntryRead(
    lines: seq<string>, order: seq<nat>, n: nat, bodies: map<nat, seq<string>>, fragment: Fragment)
    requires n < |order| && BodiesAre(lines, order, bodies)
    requires (forall rank <- order :: rank in bodies) && EntriesTo(order, n, bodies, fragment)
    ensures
      var kept := Trimmed(bodies[order[n]]);
      if kept == [] || !StartsWith(kept[0], "- ") then Fits(lines, Refused(NoEntry(order[n])))
      else EntriesTo(order, n + 1, bodies, fragment[order[n] := JoinWith(kept, "\n")])
  {
    hide NoFaultBefore, Trimmed, BodyBelow, JoinWith, SectionOf;
    assert order[..n + 1] == order[..n] + [order[n]];
    assert order[n] in bodies;
    var k: nat :| HeadsAt(lines, k, order[n]);
    assert EntryAt(lines, k) == Trimmed(bodies[order[n]]);
  }

  lemma {:induction false} AllEntries(
    lines: seq<string>, order: seq<nat>, bodies: map<nat, seq<string>>, fragment: Fragment)
    requires BodiesAre(lines, order, bodies) && bodies != map[]
    requires (forall rank <- order :: rank in bodies) && EntriesTo(order, |order|, bodies, fragment)
    ensures Fits(lines, Fine(fragment))
  {
    hide NoFaultBefore, Trimmed, BodyBelow, JoinWith, SectionOf;
    assert order[..|order|] == order;
    var rank :| rank in bodies;
    assert rank in fragment;
  }

  // ----- what parsing leaves out -----

  lemma {:induction false} NotHeadingPasses(line: string)
    requires !IsHeading(line)
    ensures Passes(line)
  {
    if SectionOf(line).Some? {
      SectionIsHeading(line);
    }
    if EndsGroup(line) {
      GroupIsHeading(line);
    }
  }

  lemma {:induction false} GroupIsHeading(line: string)
    requires EndsGroup(line)
    ensures IsHeading(line)
  {
    hide HashRun, RankOf, Strip;
    assert line[..3] == "## ";
    assert line[0] == line[1] == '#' && line[2] == ' ';
    RunOf(line[2..], 0);
    RunOf(line[1..], 1);
    RunOf(line, 2);
  }

  lemma {:induction false} BodyHasNoHeading(rest: seq<string>)
    ensures forall line <- BodyBelow(rest) :: !IsHeading(line) && line in rest
  {
    if rest != [] && !IsHeading(rest[0]) {
      BodyHasNoHeading(rest[1..]);
    }
  }

  lemma {:induction false} EntryIsClean(lines: seq<string>, k: nat)
    requires k < |lines| && OpensWithEntry(EntryAt(lines, k))
    ensures Clean(EntryAt(lines, k))
    ensures forall line <- EntryAt(lines, k) :: line in lines
  {
    var body := BodyBelow(lines[k + 1..]);
    BodyHasNoHeading(lines[k + 1..]);
    hide IsHeading, SectionOf, EndsGroup;
    var below := DropBlanksBelow(body);
    var entry := DropBlanksAbove(below);
    forall line | line in entry ensures Passes(line) && line in lines {
      assert line in below && line in body;
      NotHeadingPasses(line);
    }
    assert entry[|entry| - 1] == below[|below| - 1];
  }

  // A fragment that parses holds no line a search stops at, and none of its
  // entries ends in a blank line: folding may rely on it.
  lemma {:induction false} ParsedIsClean(text: string, fragment: Fragment)
    requires Fits(SplitLines(text), Fine(fragment))
    ensures IsClean(fragment)
    ensures forall rank <- fragment :: rank < |SECTIONS|
  {
    hide Clean, OpensWithEntry, LineFault, EntryAt, SplitLines;
    var lines := SplitLines(text);
    HoldsLines(lines);
    hide EndsLine;
    forall rank | rank in fragment
      ensures Clean(SplitOn(fragment[rank], '\n')) && rank < |SECTIONS|
    {
      var k: nat :| HeadsAt(lines, k, rank);
      OneEntryIsClean(lines, k, rank, fragment[rank]);
    }
  }

  lemma {:induction false} OneEntryIsClean(lines: seq<string>, k: nat, rank: nat, text: string)
    requires forall line <- lines :: OneLine(line)
    requires HeadsAt(lines, k, rank) && OpensWithEntry(EntryAt(lines, k))
    requires text == JoinWith(EntryAt(lines, k), "\n")
    ensures Clean(SplitOn(text, '\n')) && rank < |SECTIONS|
  {
    RankIsBelow(Strip(lines[k][4..]), 0);
    hide EntryAt, OneLine;
    EntryIsClean(lines, k);
    SplitJoined(EntryAt(lines, k), '\n');
  }

  lemma {:induction false} HoldsLines(entry: seq<string>)
    requires forall line <- entry, c <- line :: !EndsLine(c)
    ensures forall line <- entry :: OneLine(line)
  {
  }

  lemma {:induction false} RankIsBelow(name: string, from: nat)
    requires from <= |SECTIONS|
    ensures RankOf(name, from).Some? ==> RankOf(name, from).value < |SECTIONS|
    decreases |SECTIONS| - from
  {
    if from < |SECTIONS| {
      RankIsBelow(name, from + 1);
    }
  }
}
