// What the continuation pattern matches, said without a search: the texts the
// pattern describes, of which the search finds the longest.

module Continuation {
  import opened Chars
  import opened SqlLexer

  // `s[..n]` is blanks, line breaks and line comments, and a quote follows. A
  // comment is two dashes and any part of its line, so it may end anywhere in it.
  ghost predicate SpacedToQuote(s: string, n: nat)
    decreases n
  {
    && n < |s|
    && if n == 0 then s[0] == '\''
       else
         || (IsBlankOrBreak(s[0]) && SpacedToQuote(s[1..], n - 1))
         || (StartsWith(s, "--")
             && exists stop: nat ::
                  2 <= stop <= CommentReach(s) && stop <= n && SpacedToQuote(s[stop..], n - stop))
  }

  // The same with a line break in it, and only blanks and comments before that.
  ghost predicate BrokenToQuote(s: string, n: nat)
    decreases n
  {
    && 0 < n < |s|
    && (|| (IsBreak(s[0]) && SpacedToQuote(s[1..], n - 1))
        || (IsBlank(s[0]) && BrokenToQuote(s[1..], n - 1))
        || (StartsWith(s, "--")
            && exists stop: nat ::
                 2 <= stop <= CommentReach(s) && stop <= n && BrokenToQuote(s[stop..], n - stop)))
  }

  // The first piece of a non-empty run: one character, or a comment.
  lemma {:induction false} SpacedStep(s: string, n: nat) returns (stop: nat)
    requires 0 < n && SpacedToQuote(s, n)
    ensures 1 <= stop <= n && SpacedToQuote(s[stop..], n - stop)
    ensures stop == 1 ==> IsBlankOrBreak(s[0])
    ensures stop > 1 ==> StartsWith(s, "--") && stop <= CommentReach(s)
  {
    if IsBlankOrBreak(s[0]) && SpacedToQuote(s[1..], n - 1) {
      stop := 1;
    } else {
      stop :| 2 <= stop <= CommentReach(s) && stop <= n && SpacedToQuote(s[stop..], n - stop);
    }
  }

  // Past the end of a comment's line, a quote is reached through that end.
  lemma {:induction false} SpacedThroughLineEnd(s: string, e: nat, n: nat)
    requires StartsWith(s, "--") && 2 <= e <= CommentReach(s) <= n
    requires SpacedToQuote(s[e..], n - e)
    ensures SpacedToQuote(s[CommentReach(s)..], n - CommentReach(s))
    decreases CommentReach(s) - e
  {
    hide SpacedToQuote, LineEnd;
    if e < CommentReach(s) {
      var t := s[e..];
      assert n - e > 0;
      var stop := SpacedStep(t, n - e);
      if stop > 1 {
        ReachInside(s, e);
      }
      assert t[stop..] == s[e + stop..];
      SpacedThroughLineEnd(s, e + stop, n);
    }
  }

  lemma {:induction false} LineEndInside(s: string, e: nat)
    requires e <= LineEnd(s)
    ensures LineEnd(s[e..]) == LineEnd(s) - e
    decreases e
  {
    if e > 0 {
      LineEndInside(s[1..], e - 1);
      assert s[1..][e - 1..] == s[e..];
    } else {
      assert s[0..] == s;
    }
  }

  lemma {:induction false} ReachInside(s: string, e: nat)
    requires StartsWith(s, "--") && 2 <= e < CommentReach(s) && StartsWith(s[e..], "--")
    ensures e + CommentReach(s[e..]) == CommentReach(s)
  {
    LineEndInside(s[2..], e - 2);
    assert s[2..][e - 2..] == s[e..];
    assert s[e + 1] == s[e..][1] && s[2..][e - 1] == s[e + 1];
    LineEndInside(s[2..], e);
    assert s[2..][e..] == s[e..][2..];
  }

  // The search stops at the greatest end from which the rest matches.
  lemma {:induction false} CommentAfterSearch(s: string, stop: nat)
    requires 2 <= stop <= |s|
    ensures
      var end := CommentAfterBreak(s, stop);
      && (end.Some? ==>
            exists e: nat ::
              2 <= e <= stop && e <= end.value && AfterBreak(s[e..]) == Some(end.value - e))
      && (forall e: nat {:trigger AfterBreak(s[e..])} :: 2 <= e <= stop && AfterBreak(s[e..]).Some? ==>
            end.Some? && end.value >= e)
      && (AfterBreak(s[stop..]).Some? ==> end == Some(stop + AfterBreak(s[stop..]).value))
    decreases stop
  {
    hide AfterBreak;
    if stop > 2 {
      CommentAfterSearch(s, stop - 1);
    }
  }

  ghost predicate LongestSpaced(s: string, end: Option<nat>) {
    && (end.Some? ==> SpacedToQuote(s, end.value))
    && (forall n: nat :: SpacedToQuote(s, n) ==> end.Some? && n <= end.value)
  }

  lemma {:induction false} CommentAfterIsLongest(s: string)
    requires StartsWith(s, "--")
    ensures LongestSpaced(s, AfterBreak(s))
    decreases |s|, 1
  {
    AfterIsComment(s);
    hide AfterBreak, SpacedToQuote, CommentAfterBreak, CommentReach, StartsWith;
    FoundIsSpaced(s);
    forall n: nat | SpacedToQuote(s, n)
      ensures AfterBreak(s).Some? && n <= AfterBreak(s).value
    {
      NoLongerThanFound(s, n);
    }
  }

  lemma {:induction false} AfterIsComment(s: string)
    requires StartsWith(s, "--")
    ensures AfterBreak(s) == CommentAfterBreak(s, CommentReach(s))
  {
    hide CommentAfterBreak;
  }

  lemma {:induction false} FoundIsSpaced(s: string)
    requires StartsWith(s, "--")
    ensures
      var end := CommentAfterBreak(s, CommentReach(s));
      end.Some? ==> SpacedToQuote(s, end.value)
    decreases |s|, 0
  {
    hide AfterBreak, SpacedToQuote, CommentAfterBreak;
    var r := CommentReach(s);
    var end := CommentAfterBreak(s, r);
    CommentAfterSearch(s, r);
    if end.Some? {
      var e: nat :| 2 <= e <= r && e <= end.value && AfterBreak(s[e..]) == Some(end.value - e);
      AfterBreakIsLongest(s[e..]);
      SpacedByComment(s, e, end.value);
    }
  }

  lemma {:induction false} NoLongerThanFound(s: string, n: nat)
    requires StartsWith(s, "--") && SpacedToQuote(s, n)
    ensures
      var end := CommentAfterBreak(s, CommentReach(s));
      end.Some? && n <= end.value
    decreases |s|, 0
  {
    hide AfterBreak, SpacedToQuote, CommentAfterBreak;
    var r := CommentReach(s);
    CommentAfterSearch(s, r);
    SpacedNotAtDash(s, n);
    var e := SpacedStep(s, n);
    if r <= n {
      SpacedThroughLineEnd(s, e, n);
      AfterBreakIsLongest(s[r..]);
    } else {
      SpacedEndsAtQuote(s[e..], n - e);
      assert s[n..][0] == s[n];
      QuoteIsAnEnd(s[n..]);
    }
  }

  lemma {:induction false} SpacedByComment(s: string, e: nat, n: nat)
    requires StartsWith(s, "--") && 2 <= e <= CommentReach(s) && e <= n
    requires SpacedToQuote(s[e..], n - e)
    ensures SpacedToQuote(s, n)
  {
  }

  lemma {:induction false} SpacedNotAtDash(s: string, n: nat)
    requires StartsWith(s, "--") && SpacedToQuote(s, n)
    ensures 0 < n < |s| && !IsBlankOrBreak(s[0])
  {
  }

  lemma {:induction false} QuoteIsAnEnd(s: string)
    requires s != "" && s[0] == '\''
    ensures AfterBreak(s) == Some(0)
  {
  }

  lemma {:induction false} SpacedEndsAtQuote(s: string, n: nat)
    requires SpacedToQuote(s, n)
    ensures n < |s| && s[n] == '\''
    decreases n
  {
    if n > 0 {
      var stop := SpacedStep(s, n);
      SpacedEndsAtQuote(s[stop..], n - stop);
    }
  }

  lemma {:induction false} AfterBreakIsLongest(s: string)
    ensures LongestSpaced(s, AfterBreak(s))
    decreases |s|, 2
  {
    if s != "" {
      if StartsWith(s, "--") {
        CommentAfterIsLongest(s);
      } else {
        AfterBreakIsLongest(s[1..]);
      }
    }
  }

  // ----- the part up to the line break -----

  lemma {:induction false} BrokenStep(s: string, n: nat) returns (stop: nat)
    requires s != "" && !IsBreak(s[0]) && BrokenToQuote(s, n)
    ensures 1 <= stop <= n && BrokenToQuote(s[stop..], n - stop)
    ensures stop == 1 ==> IsBlank(s[0])
    ensures stop > 1 ==> StartsWith(s, "--") && stop <= CommentReach(s)
  {
    hide SpacedToQuote;
    if IsBlank(s[0]) && BrokenToQuote(s[1..], n - 1) {
      stop := 1;
    } else {
      stop :| 2 <= stop <= CommentReach(s) && stop <= n && BrokenToQuote(s[stop..], n - stop);
    }
  }

  lemma {:induction false} BrokenThroughLineEnd(s: string, e: nat, n: nat)
    requires StartsWith(s, "--") && 2 <= e <= CommentReach(s) && e <= n
    requires BrokenToQuote(s[e..], n - e)
    ensures CommentReach(s) <= n && BrokenToQuote(s[CommentReach(s)..], n - CommentReach(s))
    decreases CommentReach(s) - e
  {
    hide BrokenToQuote, LineEnd;
    if e < CommentReach(s) {
      var t := s[e..];
      assert t[0] == s[2..][e - 2];
      var stop := BrokenStep(t, n - e);
      if stop > 1 {
        ReachInside(s, e);
      }
      assert t[stop..] == s[e + stop..];
      BrokenThroughLineEnd(s, e + stop, n);
    }
  }

  lemma {:induction false} CommentBeforeSearch(s: string, stop: nat)
    requires 2 <= stop <= |s|
    ensures
      var end := CommentBeforeBreak(s, stop);
      && (end.Some? ==>
            exists e: nat ::
              2 <= e <= stop && e <= end.value && BeforeBreak(s[e..]) == Some(end.value - e))
      && (BeforeBreak(s[stop..]).Some? ==> end == Some(stop + BeforeBreak(s[stop..]).value))
    decreases stop
  {
    hide BeforeBreak;
    if stop > 2 {
      CommentBeforeSearch(s, stop - 1);
    }
  }

  ghost predicate LongestBroken(s: string, end: Option<nat>) {
    && (end.Some? ==> BrokenToQuote(s, end.value))
    && (forall n: nat :: BrokenToQuote(s, n) ==> end.Some? && n <= end.value)
  }

  lemma {:induction false} CommentBeforeIsLongest(s: string)
    requires StartsWith(s, "--")
    ensures LongestBroken(s, BeforeBreak(s))
    decreases |s|, 1
  {
    BeforeIsComment(s);
    hide BeforeBreak, BrokenToQuote, CommentBeforeBreak, StartsWith, CommentReach, IsBreak;
    FoundIsBroken(s);
    forall n: nat | BrokenToQuote(s, n)
      ensures BeforeBreak(s).Some? && n <= BeforeBreak(s).value
    {
      NoBreakBeyondFound(s, n);
    }
  }

  lemma {:induction false} FoundIsBroken(s: string)
    requires StartsWith(s, "--")
    ensures
      var end := CommentBeforeBreak(s, CommentReach(s));
      end.Some? ==> BrokenToQuote(s, end.value)
    decreases |s|, 0
  {
    hide BeforeBreak, BrokenToQuote, CommentBeforeBreak;
    var r := CommentReach(s);
    var end := CommentBeforeBreak(s, r);
    CommentBeforeSearch(s, r);
    if end.Some? {
      var e: nat :| 2 <= e <= r && e <= end.value && BeforeBreak(s[e..]) == Some(end.value - e);
      BeforeBreakIsLongest(s[e..]);
      BrokenByComment(s, e, end.value);
    }
  }

  lemma {:induction false} NoBreakBeyondFound(s: string, n: nat)
    requires StartsWith(s, "--") && BrokenToQuote(s, n)
    ensures
      var end := CommentBeforeBreak(s, CommentReach(s));
      end.Some? && n <= end.value
    decreases |s|, 0
  {
    BeforeIsComment(s);
    hide BeforeBreak, BrokenToQuote, CommentBeforeBreak, IsBreak;
    var r := CommentReach(s);
    CommentBeforeSearch(s, r);
    BeforeBreakIsLongest(s[r..]);
    var e := BrokenStep(s, n);
    BrokenThroughLineEnd(s, e, n);
  }

  lemma {:induction false} BeforeIsComment(s: string)
    requires StartsWith(s, "--")
    ensures BeforeBreak(s) == CommentBeforeBreak(s, CommentReach(s)) && !IsBreak(s[0]) && !IsBlank(s[0])
  {
    hide CommentBeforeBreak;
  }

  lemma {:induction false} BrokenByComment(s: string, e: nat, n: nat)
    requires StartsWith(s, "--") && 2 <= e <= CommentReach(s) && e <= n
    requires BrokenToQuote(s[e..], n - e)
    ensures BrokenToQuote(s, n)
  {
  }

  // The search finds the longest text the continuation pattern describes, and
  // finds one whenever there is one.
  lemma {:induction false} BeforeBreakIsLongest(s: string)
    ensures LongestBroken(s, BeforeBreak(s))
    decreases |s|, 2
  {
    if s != "" {
      if StartsWith(s, "--") {
        CommentBeforeIsLongest(s);
      } else {
        BeforeBreakIsLongest(s[1..]);
        AfterBreakIsLongest(s[1..]);
      }
    }
  }
}
