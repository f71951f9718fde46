// Redaction is decided by what stands up to the credential, and by that alone.

module RedactionLaws {
  import opened Chars
  import opened Splitter
  import opened LexerLaws
  import opened Joining
  import opened Redaction

  // ----- names -----

  predicate MarkAt(text: string, i: nat)
    requires i <= |text|
  {
    StartsWith(text[i..], ";") || StartsWith(text[i..], "%3B") || StartsWith(text[i..], "%3b")
  }

  // A segment's name stops at its first mark.
  lemma {:induction false} NameStopsAtFirstMark(segment: string)
    ensures
      var n := NameLength(segment);
      (n < |segment| ==> MarkAt(segment, n)) && forall i :: 0 <= i < n ==> !MarkAt(segment, i)
  {
    FindIsFirst(segment, ";");
    FindIsFirst(segment, "%3B");
    FindIsFirst(segment, "%3b");
  }

  lemma {:induction false} LengthByMarks(segment: string, n: nat)
    requires n <= |segment| && (n < |segment| ==> MarkAt(segment, n))
    requires forall i :: 0 <= i < n ==> !MarkAt(segment, i)
    ensures NameLength(segment) == n
  {
    NameStopsAtFirstMark(segment);
    hide NameLength, MarkAt;
  }

  // Whatever parameters follow a name, it stays the name.
  lemma {:induction false} NameStays(segment: string, tail: string)
    requires tail == "" || MarkAt(tail, 0)
    ensures NameOf(NameOf(segment) + tail) == NameOf(segment)
  {
    var name := NameOf(segment);
    var n := |name|;
    var text := name + tail;
    NameStopsAtFirstMark(segment);
    assert text[n..] == tail && tail[0..] == tail;
    forall i | 0 <= i < n ensures !MarkAt(text, i) {
      assert !MarkAt(segment, i);
      if MarkAt(text, i) {
        SameUpTo(segment, text, i, n);
      }
    }
    LengthByMarks(text, n);
  }

  // A mark that starts in the name is seen in the name: what follows begins
  // with a character no mark goes on with.
  lemma {:induction false} SameUpTo(segment: string, text: string, i: nat, n: nat)
    requires i < n <= |segment| && n <= |text| && text[..n] == segment[..n]
    requires n < |text| ==> text[n] == ';' || text[n] == '%'
    requires MarkAt(text, i)
    ensures MarkAt(segment, i)
  {
    var mark := if StartsWith(text[i..], ";") then ";" else if StartsWith(text[i..], "%3B") then "%3B" else "%3b";
    assert StartsWith(text[i..], mark);
    assert text[i..][..|mark|] == mark;
    forall k | i < k < i + |mark| ensures text[k] != ';' && text[k] != '%' {
      assert text[k] == text[i..][k - i] == mark[k - i];
    }
    assert i + |mark| <= n;
    forall k | 0 <= k < |mark| ensures segment[i..][k] == mark[k] {
      assert segment[..n][i + k] == text[..n][i + k] && text[i..][k] == mark[k];
    }
  }

  // ----- where a prefix first ends -----

  predicate Agree(names: seq<string>, others: seq<string>, end: nat) {
    end < |names| && end < |others| && names[..end + 1] == others[..end + 1]
  }

  function NamedUpTo(names: seq<string>, i: nat, to: nat): (named: seq<nat>)
    requires i <= to <= |names|
    ensures Within(named, i, to)
    decreases |names| - i
  {
    if i == to then [] else (if IsNamed(names[i]) then [i] else []) + NamedUpTo(names, i + 1, to)
  }

  lemma {:induction false} NamedSplits(names: seq<string>, i: nat, to: nat)
    requires i <= to <= |names|
    ensures NamedFrom(names, i) == NamedUpTo(names, i, to) + NamedFrom(names, to)
    decreases |names| - i
  {
    hide IsNamed;
    if i < to {
      NamedSplits(names, i + 1, to);
    }
  }

  lemma {:induction false} NamedAgrees(names: seq<string>, others: seq<string>, i: nat, end: nat)
    requires Agree(names, others, end) && i <= end + 1
    ensures NamedUpTo(names, i, end + 1) == NamedUpTo(others, i, end + 1)
    decreases |names| - i
  {
    hide IsNamed;
    if i <= end {
      assert names[..end + 1][i] == others[..end + 1][i];
      NamedAgrees(names, others, i + 1, end);
    }
  }

  // What a search finds by `end`.
  function By(found: Option<nat>, end: nat): Option<nat> {
    if found.Some? && found.value <= end then found else None
  }

  lemma {:induction false} FoundLate(
    names: seq<string>, named: seq<nat>, first: nat, segments: seq<string>, start: nat, end: nat)
    requires segments != [] && Within(named, 0, |names|) && first <= |named|
    requires forall i :: first <= i < |named| ==> named[i] > end
    requires start + |segments| > first
    ensures By(PrefixEnd(names, named, segments, start), end) == None
    decreases |named| - start
  {
    hide MatchesAt;
    if start + |segments| <= |named| {
      FoundLate(names, named, first, segments, start + 1, end);
    }
  }

  lemma {:induction false} MatchAgrees(
    names: seq<string>, others: seq<string>, named: seq<nat>, others': seq<nat>, first: nat,
    segments: seq<string>, start: nat, end: nat)
    requires Agree(names, others, end)
    requires Within(named, 0, |names|) && Within(others', 0, |others|)
    requires first <= |named| && first <= |others'| && named[..first] == others'[..first]
    requires Within(named[..first], 0, end + 1) && start + |segments| <= first
    ensures MatchesAt(names, named, start, segments) == MatchesAt(others, others', start, segments)
  {
    forall k | 0 <= k < |segments|
      ensures names[named[start + k]] == segments[k] <==> others[others'[start + k]] == segments[k]
    {
      var at := named[..first][start + k];
      assert others'[..first][start + k] == at && names[..end + 1][at] == others[..end + 1][at];
    }
  }

  lemma {:induction false} SearchAgrees(
    names: seq<string>, others: seq<string>, named: seq<nat>, others': seq<nat>, first: nat,
    segments: seq<string>, start: nat, end: nat)
    requires Agree(names, others, end) && segments != []
    requires Within(named, 0, |names|) && Within(others', 0, |others|)
    requires first <= |named| && first <= |others'| && named[..first] == others'[..first]
    requires Within(named[..first], 0, end + 1)
    requires forall i :: first <= i < |named| ==> named[i] > end
    requires forall i :: first <= i < |others'| ==> others'[i] > end
    ensures
      By(PrefixEnd(names, named, segments, start), end) == By(PrefixEnd(others, others', segments, start), end)
    decreases |named| - start
  {
    if start + |segments| > first {
      FoundLate(names, named, first, segments, start, end);
      FoundLate(others, others', first, segments, start, end);
    } else {
      MatchAgrees(names, others, named, others', first, segments, start, end);
      assert named[..first][start + |segments| - 1] == others'[..first][start + |segments| - 1];
      hide MatchesAt;
      SearchAgrees(names, others, named, others', first, segments, start + 1, end);
    }
  }

  // Two paths that agree up to `end` find a prefix ending by then at the same place.
  lemma {:induction false} EndsAgree(parts: seq<string>, others: seq<string>, segments: seq<string>, end: nat)
    requires segments != [] && Agree(Names(parts), Names(others), end)
    ensures By(EndOf(parts, segments), end) == By(EndOf(others, segments), end)
  {
    hide PrefixEnd, NamedFrom, NamedUpTo, Names;
    var names, names' := Names(parts), Names(others);
    NamedSplits(names, 0, end + 1);
    NamedSplits(names', 0, end + 1);
    NamedAgrees(names, names', 0, end);
    var shared := NamedUpTo(names, 0, end + 1);
    var named, named' := NamedFrom(names, 0), NamedFrom(names', 0);
    assert named[..|shared|] == shared == named'[..|shared|];
    assert forall i :: |shared| <= i < |named| ==> named[i] == NamedFrom(names, end + 1)[i - |shared|];
    assert forall i :: |shared| <= i < |named'| ==> named'[i] == NamedFrom(names', end + 1)[i - |shared|];
    SearchAgrees(names, names', named, named', |shared|, segments, 0, end);
  }

  lemma {:induction false} FirstEndAgrees(parts: seq<string>, others: seq<string>, end: nat)
    requires FirstEnd(parts) == Some(end) && Agree(Names(parts), Names(others), end)
    ensures FirstEnd(others) == Some(end)
  {
    EndsAgree(parts, others, CREDENTIAL_SEGMENTS[0], end);
    EndsAgree(parts, others, CREDENTIAL_SEGMENTS[1], end);
    hide EndOf, Names;
  }

  // ----- a path is its head and a tail -----

  // What may follow a head: nothing, a parameter of its last segment, or more
  // segments.
  predicate IsTail(tail: string) {
    tail == "" || tail[0] == '/' || MarkAt(tail, 0)
  }

  lemma {:induction false} JoinLast(parts: seq<string>, last: string, tail: string)
    ensures JoinWith(parts + [last], "/") + tail == JoinWith(parts + [last + tail], "/")
  {
    if parts == [] {
      assert [] + [last] == [last] && [] + [last + tail] == [last + tail];
    } else {
      JoinTwo(parts, [last], "/");
      JoinTwo(parts, [last + tail], "/");
      assert JoinWith([last], "/") == last && JoinWith([last + tail], "/") == last + tail;
      assert (JoinWith(parts, "/") + "/" + last) + tail == JoinWith(parts, "/") + "/" + (last + tail);
    }
  }

  // The parameter part of a tail, and what follows its first slash.
  lemma {:induction false} TailCut(tail: string) returns (parameter: string, more: Option<string>)
    requires IsTail(tail)
    ensures tail == parameter + (if more.Some? then "/" + more.value else "")
    ensures '/' !in parameter && (parameter == "" || MarkAt(parameter, 0))
  {
    FindIsFirst(tail, "/");
    var at := Find(tail, "/");
    var n := if at.Some? then at.value else |tail|;
    parameter := tail[..n];
    more := if at.Some? then Some(tail[n + 1..]) else None;
    forall i | 0 <= i < n ensures tail[i] != '/' {
      assert !StartsWith(tail[i..], "/");
      assert tail[i..][..1] == [tail[i]];
    }
    assert at.Some? ==> tail[n..][0] == '/' && tail == tail[..n] + "/" + tail[n + 1..];
    assert at.None? ==> parameter == tail;
    if n > 0 {
      MarkBeforeSlash(tail, n);
    }
  }

  lemma {:induction false} MarkBeforeSlash(tail: string, n: nat)
    requires 0 < n <= |tail| && MarkAt(tail, 0)
    requires n < |tail| ==> tail[n] == '/'
    ensures MarkAt(tail[..n], 0)
  {
    assert tail[0..] == tail && tail[..n][0..] == tail[..n];
    var mark := if StartsWith(tail, ";") then ";" else if StartsWith(tail, "%3B") then "%3B" else "%3b";
    assert tail[..|mark|] == mark;
    assert forall k :: 0 <= k < |mark| ==> tail[k] == mark[k] != '/';
    assert tail[..n][..|mark|] == mark;
  }

  lemma {:induction false} PartsAreFree(path: string)
    ensures forall part <- SplitOn(path, '/') :: Free(part, '/')
  {
  }

  // A path whose first prefix ends at `end`, with another tail behind its head.
  lemma {:induction false} HeadThenTail(path: string, end: nat, tail: string)
    requires end < |SplitOn(path, '/')| && IsTail(tail)
    ensures
      var parts := SplitOn(path, '/');
      var others := SplitOn(Head(parts, end) + tail, '/');
      && end < |others| && parts[..end] == others[..end] && NameOf(others[end]) == NameOf(parts[end])
  {
    hide *;
    var parts := SplitOn(path, '/');
    PartsAreFree(path);
    var parameter, more := TailCut(tail);
    var front := parts[..end] + [NameOf(parts[end]) + parameter];
    var head := Head(parts, end);
    FrontIsFree(parts, end, parameter);
    NameStays(parts[end], parameter);
    HeadWithParameter(parts, end, parameter);
    SplitJoined(front, '/');
    if more.Some? {
      SplitBetween(head + parameter, more.value, '/');
      assert head + tail == head + parameter + "/" + more.value;
      FrontStays(front, SplitOn(more.value, '/'), parts, end);
    } else {
      assert tail == parameter;
      FrontStays(front, [], parts, end);
      assert front + [] == front;
    }
  }

  lemma {:induction false} FrontIsFree(parts: seq<string>, end: nat, parameter: string)
    requires end < |parts| && '/' !in parameter && forall part <- parts :: Free(part, '/')
    ensures forall part <- parts[..end] + [NameOf(parts[end]) + parameter] :: Free(part, '/')
  {
    hide NameLength;
    assert Free(parts[end], '/');
    assert Free(NameOf(parts[end]) + parameter, '/');
  }

  lemma {:induction false} HeadWithParameter(parts: seq<string>, end: nat, parameter: string)
    requires end < |parts|
    ensures
      Head(parts, end) + parameter == JoinWith(parts[..end] + [NameOf(parts[end]) + parameter], "/")
  {
    hide JoinWith, NameOf;
    JoinLast(parts[..end], NameOf(parts[end]), parameter);
  }

  lemma {:induction false} FrontStays(front: seq<string>, more: seq<string>, parts: seq<string>, end: nat)
    requires end < |parts| && |front| == end + 1 && front[..end] == parts[..end]
    ensures (front + more)[..end] == parts[..end] && (front + more)[end] == front[end]
  {
  }

  // ... as the path's own tail is.
  lemma {:induction false} PathIsHeadAndTail(path: string, end: nat) returns (tail: string)
    requires end < |SplitOn(path, '/')|
    ensures path == Head(SplitOn(path, '/'), end) + tail && IsTail(tail)
  {
    hide *;
    var parts := SplitOn(path, '/');
    JoinSplit(path, '/');
    var parameter := NameThenParameter(parts[end]);
    HeadWithParameter(parts, end, parameter);
    assert parts[..end] + [NameOf(parts[end]) + parameter] == parts[..end + 1];
    if end + 1 == |parts| {
      tail := parameter;
      assert parts[..end + 1] == parts;
    } else {
      var rest := JoinWith(parts[end + 1..], "/");
      tail := parameter + "/" + rest;
      JoinTwo(parts[..end + 1], parts[end + 1..], "/");
      assert parts[..end + 1] + parts[end + 1..] == parts;
      Rejoined(Head(parts, end), parameter, rest);
      TailGoesOn(parameter, rest);
    }
  }

  lemma {:induction false} NameThenParameter(segment: string) returns (parameter: string)
    ensures segment == NameOf(segment) + parameter && IsTail(parameter)
  {
    NameStopsAtFirstMark(segment);
    parameter := segment[|NameOf(segment)|..];
    assert parameter[0..] == parameter;
  }

  lemma {:induction false} TailGoesOn(parameter: string, rest: string)
    requires IsTail(parameter)
    ensures IsTail(parameter + "/" + rest)
  {
    hide MarkAt;
    assert parameter + "/" + rest == parameter + ("/" + rest);
    if parameter != "" && parameter[0] != '/' {
      TailOfMark(parameter, "/" + rest);
    }
  }

  lemma {:induction false} Rejoined(head: string, parameter: string, rest: string)
    ensures head + parameter + "/" + rest == head + (parameter + "/" + rest)
  {
  }

  lemma {:induction false} TailOfMark(parameter: string, more: string)
    requires parameter == "" || MarkAt(parameter, 0)
    requires more != "" && more[0] == '/'
    ensures IsTail(parameter + more)
  {
    var tail := parameter + more;
    assert tail[0..] == tail && parameter[0..] == parameter;
    if parameter != "" {
      var mark :=
        if StartsWith(parameter, ";") then ";" else if StartsWith(parameter, "%3B") then "%3B" else "%3b";
      assert tail[..|mark|] == parameter[..|mark|] == mark;
    }
  }

  // ----- what redaction keeps -----

  // All a redacted path tells is its head: whatever tail stands behind it,
  // with anything but slashes in it, comes out the same.
  lemma {:induction false} FoundForgetsTheTail(path: string, tail: string)
    requires FirstEnd(SplitOn(path, '/')).Some? && IsTail(tail)
    ensures
      var head := Head(SplitOn(path, '/'), FirstEnd(SplitOn(path, '/')).value);
      RedactFound(head + tail) == if OnlySlashes(tail) then head + tail else head + "/" + REDACTED
  {
    var parts := SplitOn(path, '/');
    var end := FirstEnd(parts).value;
    var head := Head(parts, end);
    HeadThenTail(path, end, tail);
    var others := SplitOn(head + tail, '/');
    NamesAgree(parts, others, end);
    FirstEndAgrees(parts, others, end);
    assert Head(others, end) == head;
    assert (head + tail)[|head|..] == tail;
  }

  lemma {:induction false} NamesAgree(parts: seq<string>, others: seq<string>, end: nat)
    requires end < |parts| && end < |others|
    requires parts[..end] == others[..end] && NameOf(others[end]) == NameOf(parts[end])
    ensures Agree(Names(parts), Names(others), end)
  {
    hide NameOf, Lower;
    forall i | 0 <= i <= end ensures Names(parts)[i] == Names(others)[i] {
      assert i < end ==> parts[..end][i] == others[..end][i];
    }
  }

  // ----- the quick test -----

  lemma {:induction false} LowerBoth(first: string, second: string)
    ensures Lower(first + second) == Lower(first) + Lower(second)
    decreases |first|
  {
    hide LowerOf;
    if first == "" {
      assert first + second == second;
    } else {
      assert (first + second)[1..] == first[1..] + second;
      LowerBoth(first[1..], second);
    }
  }

  lemma {:induction false} FoundWithin(before: string, pattern: string, after: string)
    ensures Find(before + pattern + after, pattern).Some?
  {
    var text := before + pattern + after;
    FindIsFirst(text, pattern);
    assert text[|before|..][..|pattern|] == pattern;
  }

  lemma {:induction false} EndIsItsLastSegment(names: seq<string>, named: seq<nat>, segments: seq<string>, start: nat)
    requires segments != [] && Within(named, 0, |names|)
    ensures
      var end := PrefixEnd(names, named, segments, start);
      end.Some? ==> names[end.value] == segments[|segments| - 1]
    decreases |named| - start
  {
    if start + |segments| <= |named| {
      if MatchesAt(names, named, start, segments) {
        assert names[named[start + (|segments| - 1)]] == segments[|segments| - 1];
      } else {
        EndIsItsLastSegment(names, named, segments, start + 1);
      }
    }
  }

  // The quick test turns away no path that holds a prefix.
  lemma {:induction false} QuickTestIsSound(path: string)
    ensures RedactPath(path) == RedactFound(path)
  {
    var parts := SplitOn(path, '/');
    var found := FirstEnd(parts);
    if found.Some? {
      var end := found.value;
      var name := NameOf(parts[end]);
      EndIsItsLastSegment(Names(parts), NamedFrom(Names(parts), 0), CREDENTIAL_SEGMENTS[0], 0);
      EndIsItsLastSegment(Names(parts), NamedFrom(Names(parts), 0), CREDENTIAL_SEGMENTS[1], 0);
      assert Names(parts)[end] == Lower(name);
      assert Lower(name) == "invitations" || Lower(name) == "join";
      NameIsWithin(path, end);
    }
  }

  lemma {:induction false} NameIsWithin(path: string, end: nat)
    requires end < |SplitOn(path, '/')|
    ensures Find(Lower(path), Lower(NameOf(SplitOn(path, '/')[end]))).Some?
  {
    hide *;
    var parts := SplitOn(path, '/');
    var name := NameOf(parts[end]);
    var tail := PathIsHeadAndTail(path, end);
    var before := HeadEndsInName(parts, end);
    LowerBoth(before + name, tail);
    LowerBoth(before, name);
    FoundWithin(Lower(before), Lower(name), Lower(tail));
  }

  lemma {:induction false} HeadEndsInName(parts: seq<string>, end: nat) returns (before: string)
    requires end < |parts|
    ensures Head(parts, end) == before + NameOf(parts[end])
  {
    var name := NameOf(parts[end]);
    JoinLast(parts[..end], "", name);
    before := JoinWith(parts[..end] + [""], "/");
    assert "" + name == name;
  }

  // ----- paths and targets -----

  lemma {:induction false} RedactionForgetsTheTail(path: string, tail: string)
    requires FirstEnd(SplitOn(path, '/')).Some? && IsTail(tail) && !OnlySlashes(tail)
    ensures
      var head := Head(SplitOn(path, '/'), FirstEnd(SplitOn(path, '/')).value);
      RedactPath(head + tail) == head + "/" + REDACTED
  {
    var head := Head(SplitOn(path, '/'), FirstEnd(SplitOn(path, '/')).value);
    FoundForgetsTheTail(path, tail);
    QuickTestIsSound(head + tail);
  }

  // What redaction does to a path: nothing when it holds no prefix or ends at
  // it, and otherwise all after the head of its first prefix is gone.
  lemma {:induction false} RedactedIsItsHead(path: string)
    ensures
      match FirstEnd(SplitOn(path, '/'))
      case None => RedactPath(path) == path
      case Some(end) =>
        var head := Head(SplitOn(path, '/'), end);
        head <= path
        && RedactPath(path) == if OnlySlashes(path[|head|..]) then path else head + "/" + REDACTED
  {
    QuickTestIsSound(path);
    var found := FirstEnd(SplitOn(path, '/'));
    if found.Some? {
      var tail := PathIsHeadAndTail(path, found.value);
    }
  }

  lemma {:induction false} RedactingTwiceIsOnce(path: string)
    ensures RedactPath(RedactPath(path)) == RedactPath(path)
  {
    hide RedactPath, FirstEnd, Head, SplitOn;
    RedactedIsItsHead(path);
    var found := FirstEnd(SplitOn(path, '/'));
    if found.Some? {
      var head, tail := Head(SplitOn(path, '/'), found.value), "/" + REDACTED;
      assert tail[1] == '<' && tail[1] in tail;
      RedactionForgetsTheTail(path, tail);
      assert head + tail == head + "/" + REDACTED;
    }
  }

  // A target forgets its query, and redacting it twice changes nothing.
  lemma {:induction false} TargetForgetsTheQuery(path: string, query: string)
    requires '?' !in path
    ensures RedactTarget(path + "?" + query) == RedactPath(path) + "?" + REDACTED
    ensures RedactTarget(path) == RedactPath(path)
  {
    hide RedactPath;
    QueryIsAfter(path, query);
    NoQuery(path);
    assert (path + "?" + query)[..|path|] == path;
  }

  lemma {:induction false} QueryIsAfter(path: string, query: string)
    requires '?' !in path
    ensures Find(path + "?" + query, "?") == Some(|path|)
    decreases |path|
  {
    var text := path + "?" + query;
    if path == "" {
      assert text[..1] == "?";
    } else {
      assert text[0] != '?' && text[1..] == path[1..] + "?" + query;
      QueryIsAfter(path[1..], query);
    }
  }

  lemma {:induction false} NoQuery(path: string)
    requires '?' !in path
    ensures Find(path, "?") == None
  {
    if path != "" {
      assert path[0] != '?';
      NoQuery(path[1..]);
    }
  }

  lemma {:induction false} RedactedHasNoQuery(path: string)
    requires '?' !in path
    ensures '?' !in RedactPath(path)
  {
    RedactedIsItsHead(path);
    hide RedactPath, FirstEnd, Head;
    assert '?' !in REDACTED;
  }

  lemma {:induction false} RedactingATargetTwiceIsOnce(target: string)
    ensures RedactTarget(RedactTarget(target)) == RedactTarget(target)
  {
    FindIsFirst(target, "?");
    var at := Find(target, "?");
    var path := if at.Some? then target[..at.value] else target;
    forall i | 0 <= i < |path| ensures path[i] != '?' {
      assert !StartsWith(target[i..], "?");
      assert target[i..][..1] == [target[i]];
    }
    hide RedactPath, Find;
    RedactingTwiceIsOnce(path);
    RedactedHasNoQuery(path);
    TargetForgetsTheQuery(RedactPath(path), REDACTED);
  }
}
