// Splitting a text at a character and joining it again.

module Joining {
  import opened Splitter
  import opened LexerLaws

  predicate Free(part: string, sep: char) {
    sep !in part
  }

  lemma {:induction false} SplitJoined(parts: seq<string>, sep: char)
    requires parts != [] && forall part <- parts :: Free(part, sep)
    ensures SplitOn(JoinWith(parts, [sep]), sep) == parts
  {
    assert Free(parts[0], sep);
    if |parts| == 1 {
      SplitOnNothing(parts[0], sep);
    } else {
      SplitJoined(parts[1..], sep);
      var rest := JoinWith(parts[1..], [sep]);
      assert JoinWith(parts, [sep]) == parts[0] + ([sep] + rest);
      SplitOnPrefix(parts[0], [sep] + rest, sep);
      assert ([sep] + rest)[1..] == rest;
      assert parts[0] + "" == parts[0];
    }
  }

  lemma {:induction false} JoinSplit(text: string, sep: char)
    ensures JoinWith(SplitOn(text, sep), [sep]) == text
  {
    if text != "" {
      JoinSplit(text[1..], sep);
      var rest := SplitOn(text[1..], sep);
      if text[0] == sep {
        assert ([""] + rest)[1..] == rest;
      } else {
        var parts := [[text[0]] + rest[0]] + rest[1..];
        assert parts[1..] == rest[1..];
        assert JoinWith(parts, [sep]) == [text[0]] + JoinWith(rest, [sep]);
      }
    }
  }

  lemma {:induction false} SplitBetween(first: string, second: string, sep: char)
    ensures SplitOn(first + [sep] + second, sep) == SplitOn(first, sep) + SplitOn(second, sep)
    decreases |first|
  {
    var all := first + [sep] + second;
    if first == "" {
      assert all[0] == sep && all[1..] == second;
    } else {
      SplitBetween(first[1..], second, sep);
      assert all[0] == first[0] && all[1..] == first[1..] + [sep] + second;
      HeadOfBoth([first[0]], SplitOn(first[1..], sep), SplitOn(second, sep));
    }
  }

  lemma {:induction false} HeadOfBoth(start: string, first: seq<string>, second: seq<string>)
    requires first != []
    ensures [start + (first + second)[0]] + (first + second)[1..] == ([start + first[0]] + first[1..]) + second
    ensures [""] + (first + second) == ([""] + first) + second
  {
  }

  lemma {:induction false} JoinTwo(first: seq<string>, second: seq<string>, sep: string)
    requires first != [] && second != []
    ensures JoinWith(first + second, sep) == JoinWith(first, sep) + sep + JoinWith(second, sep)
    decreases |first|
  {
    assert (first + second)[1..] == first[1..] + second;
    if |first| > 1 {
      JoinTwo(first[1..], second, sep);
    } else {
      assert first[1..] + second == second;
    }
  }
}
