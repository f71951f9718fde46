// Where a credential prefix ends in a path, read off the segments as they are
// written, and what a log line shows of the path then.

module RedactionReadings {
  import opened Chars
  import opened Splitter
  import opened LexerLaws
  import opened Joining
  import opened Redaction
  import opened RedactionLaws

  // ----- what a segment says -----

  // A text that is a word, letter for letter, in either case.
  predicate Spells(text: string, word: string) {
    && |text| == |word|
    && forall i :: 0 <= i < |word| ==> text[i] == word[i] || ('A' <= text[i] <= 'Z' && text[i] + ' ' == word[i])
  }

  // A segment that says a word: the word in either case, and then nothing or a
  // parameter.
  predicate Says(part: string, word: string) {
    && |word| <= |part|
    && Spells(part[..|word|], word)
    && (|part| == |word| || MarkAt(part, |word|))
  }

  predicate SaysNothing(part: string) {
    Says(part, "") || Says(part, ".")
  }

  predicate NothingBetween(parts: seq<string>, i: nat, j: nat)
    requires j <= |parts|
  {
    forall k :: i < k < j ==> SaysNothing(parts[k])
  }

  predicate InvitationsFrom(parts: seq<string>, i: nat, j: nat, end: nat)
    requires i < j < end < |parts|
  {
    && Says(parts[i], "api") && Says(parts[j], "v1") && Says(parts[end], "invitations")
    && NothingBetween(parts, i, j) && NothingBetween(parts, j, end)
  }

  // A credential prefix that ends at a segment: `join`, or `api`, `v1` and
  // `invitations` with nothing said between them.
  predicate EndsPrefix(parts: seq<string>, end: nat)
    requires end < |parts|
  {
    || Says(parts[end], "join")
    || exists i: nat, j: nat :: i < j < end && InvitationsFrom(parts, i, j, end)
  }

  predicate FirstEndsAt(parts: seq<string>, end: nat)
    requires end < |parts|
  {
    EndsPrefix(parts, end) && forall d: nat :: d < end ==> !EndsPrefix(parts, d)
  }

  predicate HasNoPrefix(parts: seq<string>) {
    forall d: nat :: d < |parts| ==> !EndsPrefix(parts, d)
  }

  // ----- a segment's name is what it says -----

  predicate IsPlain(word: string) {
    forall i :: 0 <= i < |word| ==> IsPlainLetter(word[i])
  }

  // The Kelvin sign lowers to a `k`, which stands in no word of a prefix.
  predicate IsPlainLetter(c: char) {
    ('a' <= c <= 'z' && c != 'k') || '0' <= c <= '9' || c == '.'
  }

  lemma {:induction false} LowerSpells(text: string, word: string)
    requires IsPlain(word)
    ensures Lower(text) == word <==> Spells(text, word)
  {
    if text == "" {
      return;
    }
    var first, rest := LowerOf(text[0]), text[1..];
    assert Lower(text) == first + Lower(rest);
    if word == "" {
      return;
    }
    assert IsPlainLetter(word[0]);
    assert IsPlain(word[1..]) by {
      assert forall i :: 0 <= i < |word| - 1 ==> word[1..][i] == word[i + 1];
    }
    LowerSpells(rest, word[1..]);
    assert word == [word[0]] + word[1..];
    SpellsFirst(text, word);
    if text[0] == '\U{130}' {
      assert Lower(text)[1] == '\U{307}';
      assert forall i :: 0 <= i < |word| ==> IsPlainLetter(word[i]);
    } else {
      assert |first| == 1;
      assert Lower(text) == [first[0]] + Lower(rest);
      assert Lower(text)[1..] == Lower(rest);
    }
  }

  lemma {:induction false} SpellsFirst(text: string, word: string)
    requires text != "" && word != ""
    ensures
      Spells(text, word) <==>
      (text[0] == word[0] || ('A' <= text[0] <= 'Z' && text[0] + ' ' == word[0])) && Spells(text[1..], word[1..])
  {
    if Spells(text[1..], word[1..]) {
      assert forall i :: 1 <= i < |word| ==> word[i] == word[1..][i - 1] && text[i] == text[1..][i - 1];
    }
  }

  lemma {:induction false} NameIsSaid(part: string, word: string)
    requires IsPlain(word)
    ensures SegmentName(part) == word <==> Says(part, word)
  {
    NameStopsAtFirstMark(part);
    LowerSpells(NameOf(part), word);
    if Says(part, word) {
      forall i | 0 <= i < |word| ensures !MarkAt(part, i) {
        assert part[..|word|][i] == part[i] == part[i..][0];
        assert IsPlainLetter(word[i]);
      }
      LengthByMarks(part, |word|);
    }
  }

  lemma {:induction false} NamedIsSomething(part: string)
    ensures IsNamed(SegmentName(part)) <==> !SaysNothing(part)
  {
    NameIsSaid(part, "");
    NameIsSaid(part, ".");
  }

  // ----- the named positions -----

  predicate Rising(named: seq<nat>) {
    forall s, t :: 0 <= s < t < |named| ==> named[s] < named[t]
  }

  predicate AllNamed(names: seq<string>, named: seq<nat>)
    requires Within(named, 0, |names|)
  {
    forall s :: 0 <= s < |named| ==> IsNamed(names[named[s]])
  }

  predicate NoneLeftOut(names: seq<string>, named: seq<nat>, i: nat) {
    forall j :: i <= j < |names| && IsNamed(names[j]) ==> j in named
  }

  lemma {:induction false} NamedAre(names: seq<string>, i: nat)
    requires i <= |names|
    ensures
      var named := NamedFrom(names, i);
      Rising(named) && AllNamed(names, named) && NoneLeftOut(names, named, i)
    decreases |names| - i
  {
    hide IsNamed, Within, Rising, AllNamed, NoneLeftOut;
    if i == |names| {
      NoneNamed(names, NamedFrom(names, i));
    } else {
      NamedAre(names, i + 1);
      var rest := NamedFrom(names, i + 1);
      if IsNamed(names[i]) {
        OneMoreNamed(names, rest, i);
      } else {
        assert [] + rest == rest;
        OneMoreUnnamed(names, rest, i);
      }
    }
  }

  lemma {:induction false} NoneNamed(names: seq<string>, named: seq<nat>)
    requires named == []
    ensures
      Rising(named) && Within(named, 0, |names|) && AllNamed(names, named) && NoneLeftOut(names, named, |names|)
  {
  }

  lemma {:induction false} OneMoreNamed(names: seq<string>, rest: seq<nat>, i: nat)
    requires i < |names| && IsNamed(names[i]) && Within(rest, i + 1, |names|)
    requires Rising(rest) && AllNamed(names, rest) && NoneLeftOut(names, rest, i + 1)
    ensures
      var named := [i] + rest;
      Rising(named) && Within(named, 0, |names|) && AllNamed(names, named) && NoneLeftOut(names, named, i)
  {
    hide IsNamed;
    var named := [i] + rest;
    assert forall s :: 1 <= s < |named| ==> named[s] == rest[s - 1];
    assert forall j :: j in named <==> j == i || j in rest;
  }

  lemma {:induction false} OneMoreUnnamed(names: seq<string>, rest: seq<nat>, i: nat)
    requires i < |names| && !IsNamed(names[i])
    requires NoneLeftOut(names, rest, i + 1)
    ensures NoneLeftOut(names, rest, i)
  {
    hide IsNamed;
  }

  // The search finds the first start whose names match.
  lemma {:induction false} SearchIsFirst(names: seq<string>, named: seq<nat>, segments: seq<string>, start: nat)
    requires segments != [] && Within(named, 0, |names|)
    ensures
      match PrefixEnd(names, named, segments, start)
      case None => forall s :: start <= s <= |named| - |segments| ==> !MatchesAt(names, named, s, segments)
      case Some(end) =>
        exists s :: start <= s <= |named| - |segments|
          && MatchesAt(names, named, s, segments) && named[s + |segments| - 1] == end
          && forall t :: start <= t < s ==> !MatchesAt(names, named, t, segments)
    decreases |named| - start
  {
    hide MatchesAt, Within;
    if start + |segments| <= |named| && !MatchesAt(names, named, start, segments) {
      SearchIsFirst(names, named, segments, start + 1);
    }
  }

  // ----- matching is reading -----

  function NamedOf(parts: seq<string>): (named: seq<nat>)
    ensures Within(named, 0, |parts|)
  {
    NamedFrom(Names(parts), 0)
  }

  lemma {:induction false} NamedOfIs(parts: seq<string>)
    ensures Rising(NamedOf(parts))
    ensures forall j :: 0 <= j < |parts| ==> (j in NamedOf(parts) <==> !SaysNothing(parts[j]))
  {
    hide SaysNothing, SegmentName, NamedFrom, IsNamed;
    var names := Names(parts);
    NamedAre(names, 0);
    forall j | 0 <= j < |parts| ensures j in NamedOf(parts) <==> !SaysNothing(parts[j]) {
      NamedIsSomething(parts[j]);
      assert names[j] == SegmentName(parts[j]);
    }
  }

  lemma {:induction false} JoinMatches(parts: seq<string>, s: nat)
    requires s < |NamedOf(parts)|
    ensures
      MatchesAt(Names(parts), NamedOf(parts), s, ["join"]) <==> Says(parts[NamedOf(parts)[s]], "join")
  {
    hide Says, SegmentName, NamedFrom;
    NameIsSaid(parts[NamedOf(parts)[s]], "join");
    assert MatchesAt(Names(parts), NamedOf(parts), s, ["join"]) <==>
      Names(parts)[NamedOf(parts)[s + 0]] == ["join"][0];
  }

  lemma {:induction false} InvitationsMatch(parts: seq<string>, s: nat)
    requires s + 3 <= |NamedOf(parts)|
    ensures
      var named := NamedOf(parts);
      MatchesAt(Names(parts), named, s, ["api", "v1", "invitations"]) <==>
      Says(parts[named[s]], "api") && Says(parts[named[s + 1]], "v1") && Says(parts[named[s + 2]], "invitations")
  {
    hide Says, SegmentName, NamedFrom;
    var named, words := NamedOf(parts), ["api", "v1", "invitations"];
    NameIsSaid(parts[named[s]], "api");
    NameIsSaid(parts[named[s + 1]], "v1");
    NameIsSaid(parts[named[s + 2]], "invitations");
    assert MatchesAt(Names(parts), named, s, words) <==>
      Names(parts)[named[s + 0]] == words[0] && Names(parts)[named[s + 1]] == words[1]
      && Names(parts)[named[s + 2]] == words[2];
  }

  lemma {:induction false} WordsAreNotNothing(part: string)
    ensures Says(part, "join") ==> !SaysNothing(part)
    ensures Says(part, "api") || Says(part, "v1") || Says(part, "invitations") ==> !SaysNothing(part)
  {
    hide SegmentName, Says;
    NameIsSaid(part, "join");
    NameIsSaid(part, "api");
    NameIsSaid(part, "v1");
    NameIsSaid(part, "invitations");
    NamedIsSomething(part);
  }

  // Two said segments with nothing said between them are neighbours.
  lemma {:induction false} Neighbours(parts: seq<string>, s: nat, j: nat)
    requires s < |NamedOf(parts)| && NamedOf(parts)[s] < j < |parts|
    requires !SaysNothing(parts[j]) && NothingBetween(parts, NamedOf(parts)[s], j)
    ensures s + 1 < |NamedOf(parts)| && NamedOf(parts)[s + 1] == j
  {
    hide SaysNothing, NamedOf;
    NamedOfIs(parts);
    var named := NamedOf(parts);
    var t :| 0 <= t < |named| && named[t] == j;
    assert s < t && named[s] < named[s + 1] <= j;
    assert forall k :: named[s] < k < j ==> k !in named;
    assert named[s + 1] in named;
  }

  lemma {:induction false} NothingAmong(parts: seq<string>, s: nat)
    requires s + 1 < |NamedOf(parts)|
    ensures NamedOf(parts)[s] < NamedOf(parts)[s + 1]
    ensures NothingBetween(parts, NamedOf(parts)[s], NamedOf(parts)[s + 1])
  {
    hide SaysNothing, NamedOf;
    NamedOfIs(parts);
  }

  // ----- the end that is found -----

  predicate JoinAt(parts: seq<string>, end: nat)
    requires end < |parts|
  {
    Says(parts[end], "join")
  }

  predicate InvitationsAt(parts: seq<string>, end: nat)
    requires end < |parts|
  {
    exists i: nat, j: nat :: i < j < end && InvitationsFrom(parts, i, j, end)
  }

  lemma {:induction false} JoinIsFound(parts: seq<string>)
    ensures
      match EndOf(parts, ["join"])
      case None => forall d: nat :: d < |parts| ==> !JoinAt(parts, d)
      case Some(end) => JoinAt(parts, end) && forall d: nat :: d < end ==> !JoinAt(parts, d)
  {
    hide Says, SaysNothing, NamedFrom, PrefixEnd, MatchesAt, SegmentName;
    var named := NamedOf(parts);
    NamedOfIs(parts);
    SearchIsFirst(Names(parts), named, ["join"], 0);
    forall s: nat | s < |named|
      ensures MatchesAt(Names(parts), named, s, ["join"]) <==> JoinAt(parts, named[s])
    {
      JoinMatches(parts, s);
    }
    forall d: nat | d < |parts| && JoinAt(parts, d)
      ensures exists s: nat :: s < |named| && named[s] == d
    {
      WordsAreNotNothing(parts[d]);
    }
  }

  lemma {:induction false} InvitationsAreAt(parts: seq<string>, s: nat)
    requires s + 3 <= |NamedOf(parts)|
    requires MatchesAt(Names(parts), NamedOf(parts), s, ["api", "v1", "invitations"])
    ensures InvitationsAt(parts, NamedOf(parts)[s + 2])
  {
    hide Says, SaysNothing, NamedOf, MatchesAt, NothingBetween;
    var named := NamedOf(parts);
    InvitationsMatch(parts, s);
    NothingAmong(parts, s);
    NothingAmong(parts, s + 1);
    assert InvitationsFrom(parts, named[s], named[s + 1], named[s + 2]);
  }

  lemma {:induction false} InvitationsStart(parts: seq<string>, end: nat) returns (s: nat)
    requires end < |parts| && InvitationsAt(parts, end)
    ensures s + 3 <= |NamedOf(parts)| && NamedOf(parts)[s + 2] == end
    ensures MatchesAt(Names(parts), NamedOf(parts), s, ["api", "v1", "invitations"])
  {
    hide Says, SaysNothing, NamedOf, MatchesAt, NothingBetween;
    var named := NamedOf(parts);
    var i: nat, j: nat :| i < j < end && InvitationsFrom(parts, i, j, end);
    WordsAreNotNothing(parts[i]);
    WordsAreNotNothing(parts[j]);
    WordsAreNotNothing(parts[end]);
    NamedOfIs(parts);
    var at :| 0 <= at < |named| && named[at] == i;
    s := at;
    Neighbours(parts, s, j);
    Neighbours(parts, s + 1, end);
    InvitationsMatch(parts, s);
  }

  lemma {:induction false} InvitationsAreFound(parts: seq<string>)
    ensures
      match EndOf(parts, ["api", "v1", "invitations"])
      case None => forall d: nat :: d < |parts| ==> !InvitationsAt(parts, d)
      case Some(end) => InvitationsAt(parts, end) && forall d: nat :: d < end ==> !InvitationsAt(parts, d)
  {
    hide InvitationsAt, SaysNothing, NamedFrom, PrefixEnd, MatchesAt, SegmentName;
    var named, words := NamedOf(parts), ["api", "v1", "invitations"];
    NamedOfIs(parts);
    SearchIsFirst(Names(parts), named, words, 0);
    var found := EndOf(parts, words);
    assert found == PrefixEnd(Names(parts), named, words, 0);
    if found.Some? {
      var s :| 0 <= s <= |named| - 3 && MatchesAt(Names(parts), named, s, words) && named[s + 2] == found.value
        && forall t :: 0 <= t < s ==> !MatchesAt(Names(parts), named, t, words);
      InvitationsAreAt(parts, s);
    }
    forall d: nat | d < |parts| && InvitationsAt(parts, d)
      ensures found.Some? && found.value <= d
    {
      var t := InvitationsStart(parts, d);
      assert found.Some?;
      assert found.value <= named[t + 2];
    }
  }

  // The end that redaction goes by is the first segment at which a credential
  // prefix ends.
  lemma {:induction false} FirstEndIsRead(parts: seq<string>)
    ensures
      match FirstEnd(parts)
      case None => HasNoPrefix(parts)
      case Some(end) => FirstEndsAt(parts, end)
  {
    hide EndOf, Says, InvitationsFrom;
    JoinIsFound(parts);
    InvitationsAreFound(parts);
    forall d: nat | d < |parts| ensures EndsPrefix(parts, d) <==> JoinAt(parts, d) || InvitationsAt(parts, d) {
    }
  }

  // ----- what a log line shows -----

  lemma {:induction false} SaidIsTheName(part: string, word: string)
    requires IsPlain(word) && Says(part, word)
    ensures NameOf(part) == part[..|word|]
  {
    NameStopsAtFirstMark(part);
    LowerSpells(NameOf(part), word);
    NameIsSaid(part, word);
  }

  // How long the last word of a prefix is, at the segment it ends at.
  function LastWordLength(part: string): nat {
    if Says(part, "join") then 4 else 11
  }

  // A path with no credential prefix is shown whole. Any other is shown up to
  // the last word of its first prefix: the rest, unless it is only slashes, is
  // one mark.
  lemma {:induction false} ShownUpToItsPrefix(path: string)
    ensures HasNoPrefix(SplitOn(path, '/')) ==> RedactPath(path) == path
    ensures
      forall end: nat :: end < |SplitOn(path, '/')| && FirstEndsAt(SplitOn(path, '/'), end) ==>
        var parts := SplitOn(path, '/');
        var n := LastWordLength(parts[end]);
        && n <= |parts[end]|
        && var shown := JoinWith(parts[..end] + [parts[end][..n]], "/");
           shown <= path
           && RedactPath(path) == if OnlySlashes(path[|shown|..]) then path else shown + "/<redacted>"
  {
    hide RedactPath, SplitOn, JoinWith, FirstEnd, NameOf, EndsPrefix, OnlySlashes, LastWordLength;
    var parts := SplitOn(path, '/');
    FirstEndIsRead(parts);
    RedactedIsItsHead(path);
    OneFirstEnd(parts);
    forall end: nat | end < |parts| && FirstEndsAt(parts, end)
      ensures
        var n := LastWordLength(parts[end]);
        n <= |parts[end]| && Head(parts, end) == JoinWith(parts[..end] + [parts[end][..n]], "/")
    {
      EndIsALastWord(parts, end);
    }
  }

  lemma {:induction false} EndIsALastWord(parts: seq<string>, end: nat)
    requires end < |parts| && EndsPrefix(parts, end)
    ensures LastWordLength(parts[end]) <= |parts[end]|
    ensures NameOf(parts[end]) == parts[end][..LastWordLength(parts[end])]
  {
    hide NameOf, SaysNothing;
    if Says(parts[end], "join") {
      SaidIsTheName(parts[end], "join");
    } else {
      SaidIsTheName(parts[end], "invitations");
    }
  }

  lemma {:induction false} OneFirstEnd(parts: seq<string>)
    ensures
      forall end: nat, other: nat ::
        end < |parts| && other < |parts| && FirstEndsAt(parts, end) && FirstEndsAt(parts, other) ==> end == other
    ensures forall end: nat :: end < |parts| && FirstEndsAt(parts, end) ==> !HasNoPrefix(parts)
  {
    hide EndsPrefix;
  }

  // ----- the two links -----

  lemma {:induction false} EndsByWhatStandsBefore(parts: seq<string>, more: seq<string>, end: nat)
    requires end < |parts|
    ensures EndsPrefix(parts + more, end) <==> EndsPrefix(parts, end)
  {
    hide Says, SaysNothing;
    var all := parts + more;
    assert forall k :: 0 <= k < |parts| ==> all[k] == parts[k];
    forall i: nat, j: nat | i < j < end
      ensures InvitationsFrom(all, i, j, end) <==> InvitationsFrom(parts, i, j, end)
    {
    }
  }

  predicate IsLink(words: seq<string>) {
    words == ["join"] || words == ["api", "v1", "invitations"]
  }

  lemma {:induction false} LinkSplits(front: string, words: seq<string>, token: string)
    requires IsLink(words)
    ensures
      SplitOn(front + "/" + JoinWith(words, "/") + "/" + token, '/') ==
      SplitOn(front, '/') + words + SplitOn(token, '/')
  {
    hide SplitOn, JoinWith;
    SplitBetween(front + "/" + JoinWith(words, "/"), token, '/');
    SplitBetween(front, JoinWith(words, "/"), '/');
    assert forall word <- words :: Free(word, '/');
    SplitJoined(words, '/');
  }

  lemma {:induction false} LinkEnds(first: seq<string>, words: seq<string>, last: seq<string>)
    requires HasNoPrefix(first) && IsLink(words)
    ensures
      var end := |first| + |words| - 1;
      FirstEndsAt(first + words + last, end)
      && LastWordLength((first + words + last)[end]) == |words[|words| - 1]|
  {
    hide EndsPrefix;
    var all := first + words + last;
    var end := |first| + |words| - 1;
    assert all == first + (words + last);
    forall d: nat | d < |first| ensures !EndsPrefix(all, d) {
      EndsByWhatStandsBefore(first, words + last, d);
    }
    WordsSay();
    if words == ["join"] {
      assert all[end] == "join";
      JoinEnds(all, end);
    } else {
      assert all[end - 2] == "api" && all[end - 1] == "v1" && all[end] == "invitations";
      InvitationsEnd(all, end - 2);
      NoEnd(all, end - 2);
      NoEnd(all, end - 1);
    }
  }

  lemma {:induction false} WordsSay()
    ensures Says("join", "join") && !Says("invitations", "join")
  {
    assert "invitations"[..4][0] == 'i';
  }

  lemma {:induction false} JoinEnds(parts: seq<string>, end: nat)
    requires end < |parts| && parts[end] == "join"
    ensures EndsPrefix(parts, end)
  {
    assert Says("join", "join");
  }

  lemma {:induction false} InvitationsEnd(parts: seq<string>, i: nat)
    requires i + 2 < |parts| && parts[i] == "api" && parts[i + 1] == "v1" && parts[i + 2] == "invitations"
    ensures EndsPrefix(parts, i + 2)
  {
    hide SaysNothing;
    assert Says("api", "api") && Says("v1", "v1") && Says("invitations", "invitations");
    assert InvitationsFrom(parts, i, i + 1, i + 2);
  }

  lemma {:induction false} NoEnd(parts: seq<string>, end: nat)
    requires end < |parts| && (parts[end] == "api" || parts[end] == "v1")
    ensures !EndsPrefix(parts, end)
  {
    hide SaysNothing;
    assert !Says(parts[end], "join") && !Says(parts[end], "invitations");
  }

  lemma {:induction false} LinkIsMasked(front: string, words: seq<string>, token: string)
    requires HasNoPrefix(SplitOn(front, '/')) && IsLink(words) && !OnlySlashes(token)
    ensures
      var link := front + "/" + JoinWith(words, "/");
      RedactPath(link + "/" + token) == link + "/<redacted>"
  {
    hide SplitOn, JoinWith, RedactPath, FirstEndsAt, HasNoPrefix, LastWordLength, OnlySlashes;
    var link := front + "/" + JoinWith(words, "/");
    var path := link + "/" + token;
    var first, last := SplitOn(front, '/'), SplitOn(token, '/');
    var parts, end := first + words + last, |first| + |words| - 1;
    LinkSplits(front, words, token);
    LinkEnds(first, words, last);
    ShownUpToItsPrefix(path);
    LastStaysWhole(first, words, last);
    JoinTwo(first, words, "/");
    JoinSplit(front, '/');
    TailIs(link, token);
    MoreThanSlashes(token);
  }

  lemma {:induction false} LastStaysWhole(first: seq<string>, words: seq<string>, last: seq<string>)
    requires words != []
    ensures
      var parts, end := first + words + last, |first| + |words| - 1;
      parts[..end] + [parts[end][..|words[|words| - 1]|]] == first + words
  {
    var parts, end := first + words + last, |first| + |words| - 1;
    var word := words[|words| - 1];
    assert parts[end] == word && word[..|word|] == word;
    assert parts[..end] + [word] == first + words;
  }

  lemma {:induction false} TailIs(link: string, token: string)
    ensures (link + "/" + token)[|link|..] == "/" + token
  {
  }

  lemma {:induction false} MoreThanSlashes(token: string)
    requires !OnlySlashes(token)
    ensures !OnlySlashes("/" + token)
  {
    var c :| c in token && c != '/';
    assert c in "/" + token;
  }

  // Behind a front with no prefix in it, the token of an invitation's link is
  // not shown, nor anything after it.
  lemma {:induction false} TokenIsMasked(front: string, token: string)
    requires HasNoPrefix(SplitOn(front, '/')) && !OnlySlashes(token)
    ensures RedactPath(front + "/join/" + token) == front + "/join/<redacted>"
    ensures RedactPath(front + "/api/v1/invitations/" + token) == front + "/api/v1/invitations/<redacted>"
  {
    hide SplitOn, RedactPath, JoinWith, HasNoPrefix, OnlySlashes;
    LinkTexts();
    JoinTexts();
    InvitationTexts();
    RedactedInvitation();
    LinkIsMasked(front, ["join"], token);
    LinkIsMasked(front, ["api", "v1", "invitations"], token);
    Written(front, "join", "/join/", token);
    Written(front, "api/v1/invitations", "/api/v1/invitations/", token);
    Shown(front, "join", "/join/<redacted>");
    Shown(front, "api/v1/invitations", "/api/v1/invitations/<redacted>");
  }

  lemma {:induction false} Written(front: string, link: string, between: string, token: string)
    requires between == "/" + link + "/"
    ensures front + "/" + link + "/" + token == front + between + token
  {
  }

  lemma {:induction false} Shown(front: string, link: string, rest: string)
    requires rest == "/" + link + "/<redacted>"
    ensures front + "/" + link + "/<redacted>" == front + rest
  {
  }

  lemma {:induction false} LinkTexts()
    ensures JoinWith(["join"], "/") == "join"
    ensures JoinWith(["api", "v1", "invitations"], "/") == "api/v1/invitations"
    ensures IsLink(["join"]) && IsLink(["api", "v1", "invitations"])
  {
    var words := ["api", "v1", "invitations"];
    assert words[1..] == ["v1", "invitations"] && words[1..][1..] == ["invitations"];
  }

  lemma {:induction false} JoinTexts()
    ensures "/join/" == "/" + "join" + "/" && "/join/<redacted>" == "/" + "join" + "/<redacted>"
  {
  }

  lemma {:induction false} InvitationTexts()
    ensures "/api/v1/invitations/" == "/" + "api/v1/invitations" + "/"
  {
  }

  lemma {:induction false} RedactedInvitation()
    ensures "/api/v1/invitations/<redacted>" == "/" + "api/v1/invitations" + "/<redacted>"
  {
  }
}
