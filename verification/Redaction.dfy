// Request paths as a log line may print them: nothing after a credential prefix.

module Redaction {
  import opened Chars
  import opened Splitter
  import opened LexerLaws

  const REDACTED := "<redacted>"

  // Each credential prefix as the segment names it is matched by.
  const CREDENTIAL_SEGMENTS: seq<seq<string>> := [["api", "v1", "invitations"], ["join"]]

  // `str.lower`, one character at a time: the only letters whose lower case
  // has a character of ASCII in it are ASCII's own, a dotted capital i and the
  // Kelvin sign. Others keep their case here, which no comparison sees.
  function LowerOf(c: char): string {
    if 'A' <= c <= 'Z' then [c + ('a' - 'A')]
    else if c == '\U{130}' then "i\U{307}"
    else if c == '\U{212A}' then "k"
    else [c]
  }

  function Lower(text: string): string {
    if text == "" then "" else LowerOf(text[0]) + Lower(text[1..])
  }

  // How much of a segment is its name: up to its first parameter, or all of it.
  function NameLength(segment: string): (n: nat)
    ensures n <= |segment|
  {
    var first, second, third := Find(segment, ";"), Find(segment, "%3B"), Find(segment, "%3b");
    var n := if first.Some? then first.value else |segment|;
    var m := if second.Some? && second.value < n then second.value else n;
    if third.Some? && third.value < m then third.value else m
  }

  function NameOf(segment: string): string {
    segment[..NameLength(segment)]
  }

  function SegmentName(segment: string): string {
    Lower(NameOf(segment))
  }

  function Names(parts: seq<string>): (names: seq<string>)
    ensures |names| == |parts|
  {
    seq(|parts|, i requires 0 <= i < |parts| => SegmentName(parts[i]))
  }

  predicate IsNamed(name: string) {
    name != "" && name != "."
  }

  predicate Within(named: seq<nat>, from: nat, to: nat) {
    forall i :: 0 <= i < |named| ==> from <= named[i] < to
  }

  // The positions of the names that name something, from `i` on.
  function NamedFrom(names: seq<string>, i: nat): (named: seq<nat>)
    requires i <= |names|
    ensures Within(named, i, |names|)
    decreases |names| - i
  {
    if i == |names| then []
    else (if IsNamed(names[i]) then [i] else []) + NamedFrom(names, i + 1)
  }

  predicate MatchesAt(names: seq<string>, named: seq<nat>, start: nat, segments: seq<string>)
    requires Within(named, 0, |names|)
    requires start + |segments| <= |named|
  {
    forall k :: 0 <= k < |segments| ==> names[named[start + k]] == segments[k]
  }

  // Where the segments first end, from the name at `start` on.
  function PrefixEnd(names: seq<string>, named: seq<nat>, segments: seq<string>, start: nat): (end: Option<nat>)
    requires segments != [] && Within(named, 0, |names|)
    ensures end.Some? ==> end.value < |names|
    decreases |named| - start
  {
    if start + |segments| > |named| then None
    else if MatchesAt(names, named, start, segments) then Some(named[start + |segments| - 1])
    else PrefixEnd(names, named, segments, start + 1)
  }

  function EndOf(parts: seq<string>, segments: seq<string>): (end: Option<nat>)
    requires segments != []
    ensures end.Some? ==> end.value < |parts|
  {
    PrefixEnd(Names(parts), NamedFrom(Names(parts), 0), segments, 0)
  }

  // The end of whichever prefix ends first.
  function FirstEnd(parts: seq<string>): (end: Option<nat>)
    ensures end.Some? ==> end.value < |parts|
  {
    var invitation, join := EndOf(parts, CREDENTIAL_SEGMENTS[0]), EndOf(parts, CREDENTIAL_SEGMENTS[1]);
    if invitation.None? then join
    else if join.None? || invitation.value <= join.value then invitation
    else join
  }

  function Head(parts: seq<string>, end: nat): string
    requires end < |parts|
  {
    JoinWith(parts[..end] + [NameOf(parts[end])], "/")
  }

  predicate OnlySlashes(text: string) {
    forall c <- text :: c == '/'
  }

  predicate MayHoldPrefix(path: string) {
    var lowered := Lower(path);
    Find(lowered, "invitations").Some? || Find(lowered, "join").Some?
  }

  function RedactFound(path: string): string {
    var parts := SplitOn(path, '/');
    var end := FirstEnd(parts);
    if end.None? then path
    else
      var head := Head(parts, end.value);
      if |head| <= |path| && OnlySlashes(path[|head|..]) then path else head + "/" + REDACTED
  }

  function RedactPath(path: string): string {
    if !MayHoldPrefix(path) then path else RedactFound(path)
  }

  function RedactTarget(target: string): string {
    var at := Find(target, "?");
    if at.None? then RedactPath(target) else RedactPath(target[..at.value]) + "?" + REDACTED
  }
}
