// Escape strings and what follows them: whether a line break carries one on
// into the next quote.

module Escapes {
  import opened Chars
  import opened SqlLexer
  import opened LexerLaws
  import opened Continuation

  // An `E'…'` body that ends at its first lone quote, or nowhere.
  predicate Straight(s: string) {
    if s == "" then true
    else if s[0] == '\\' then |s| == 1 || Straight(s[2..])
    else if s[0] != '\'' then Straight(s[1..])
    else if |s| > 1 && s[1] == '\'' then Straight(s[2..])
    else BeforeBreak(s[1..]).None?
  }

  predicate OpensEscape(s: string) {
    |s| > 1 && s[0] in "Ee" && s[1] == '\''
  }

  // An escape string at the head of `s`, carried on over a line break.
  predicate Carries(s: string) {
    OpensEscape(s) && !Straight(s[2..])
  }

  // No escape string of `s` is carried on over a line break.
  predicate Uncontinued(s: string)
    decreases |s|
  {
    s == "" || (!Carries(s) && Uncontinued(s[FormAt(s).len..]))
  }

  lemma {:induction false} EscapeForm(s: string)
    requires s != ""
    ensures OpensEscape(s) <==> FormAt(s).kind == EscapeString
    ensures OpensEscape(s) ==> FormAt(s) == FormOf(EscapeString, 2, EscapeEnd(s[2..]))
  {
    hide EscapeEnd, QuotedEnd, BlockEnd, LineEnd, DollarEnd, TagLength;
    if OpensEscape(s) {
      assert s[1..][0] == '\'' && s[1..][1..] == s[2..];
      assert WordRun(s[1..]) == 0 && WordRun(s) == 1;
    }
  }

  // ----- bodies -----

  lemma {:induction false} EscapeStops(s: string)
    requires EscapeEnd(s).closed
    ensures
      var n := EscapeEnd(s).len;
      s[n - 1] == '\'' && (n < |s| ==> s[n] != '\'')
    decreases |s|
  {
    hide BeforeBreak;
    if s[0] == '\\' {
      EscapeStops(s[2..]);
    } else if s[0] != '\'' {
      EscapeStops(s[1..]);
    } else if |s| > 1 && s[1] == '\'' {
      EscapeStops(s[2..]);
    } else if BeforeBreak(s[1..]).Some? {
      EscapeStops(s[2 + BeforeBreak(s[1..]).value..]);
    }
  }

  // What one step of a body consumes: an escape, a character or a doubled
  // quote; nothing at a lone quote, or at a backslash that ends the text.
  function Turn(s: string): (n: nat)
    requires s != ""
    ensures n <= |s|
  {
    if s[0] == '\\' then if |s| == 1 then 0 else 2
    else if s[0] != '\'' then 1
    else if |s| > 1 && s[1] == '\'' then 2
    else 0
  }

  lemma {:induction false} EscapeTurn(s: string)
    requires s != "" && Turn(s) > 0
    ensures EscapeEnd(s) == EscapeEnd(s[Turn(s)..]).After(Turn(s))
    ensures Straight(s) == Straight(s[Turn(s)..])
  {
    hide BeforeBreak;
  }

  // A body that stays straight with `y` behind it was straight, and ends where it did.
  lemma {:induction false} StraightSwap(s: string, y: string)
    requires EscapeEnd(s).closed && (y == "" || y[0] != '\'')
    requires Straight(s[..EscapeEnd(s).len] + y)
    ensures Straight(s) && EscapeEnd(s[..EscapeEnd(s).len] + y) == EscapeEnd(s)
    decreases |s|
  {
    assert s != "" && (s == "\\" ==> !EscapeEnd(s).closed);
    hide EscapeEnd, Straight;
    var e, k := EscapeEnd(s), Turn(s);
    var t := s[..e.len] + y;
    if k > 0 {
      EscapeTurn(s);
      assert t[0] == s[0] && (k == 2 ==> t[1] == s[1]);
      EscapeTurn(t);
      KeptBehind(s, k, e.len, y);
      StraightSwap(s[k..], y);
    } else {
      LoneQuoteSwap(s, y);
    }
  }

  lemma {:induction false} KeptBehind(s: string, k: nat, n: nat, y: string)
    requires k <= n <= |s|
    ensures (s[..n] + y)[k..] == s[k..][..n - k] + y
  {
  }

  lemma {:induction false} LoneQuoteSwap(s: string, y: string)
    requires s != "" && s[0] == '\'' && (|s| == 1 || s[1] != '\'') && (y == "" || y[0] != '\'')
    requires EscapeEnd(s).closed && Straight(s[..EscapeEnd(s).len] + y)
    ensures Straight(s) && EscapeEnd(s[..EscapeEnd(s).len] + y) == EscapeEnd(s)
  {
    hide BeforeBreak;
    if BeforeBreak(s[1..]).Some? {
      CarriedStill(s, y);
    } else {
      var t := s[..EscapeEnd(s).len] + y;
      assert t == "'" + y && t[1..] == y;
    }
  }

  lemma {:induction false} CarriedStill(s: string, y: string)
    requires s != "" && s[0] == '\'' && (|s| == 1 || s[1] != '\'') && BeforeBreak(s[1..]).Some?
    requires EscapeEnd(s).closed
    ensures !Straight(s[..EscapeEnd(s).len] + y)
  {
    hide BeforeBreak;
    var n, v := EscapeEnd(s).len, BeforeBreak(s[1..]).value;
    var t := s[..n] + y;
    assert n > 2 + v && t[1] == s[1];
    assert t[1..][..v + 1] == s[1..][..v + 1];
    ContinuedAnyway(s[1..], t[1..], v);
  }

  // Whether a quote is carried on depends on the text up to the next one alone.
  lemma {:induction false} ContinuedAnyway(s: string, t: string, n: nat)
    requires BeforeBreak(s) == Some(n) && n < |t| && t[..n + 1] == s[..n + 1]
    ensures BeforeBreak(t).Some?
  {
    BeforeBreakIsLongest(s);
    BrokenAlike(s, t, n);
    BeforeBreakIsLongest(t);
    hide BeforeBreak, BrokenToQuote;
  }

  lemma {:induction false} ReachAlike(s: string, t: string, stop: nat, n: nat)
    requires StartsWith(s, "--") && 2 <= stop <= CommentReach(s) && stop <= n < |s|
    requires n < |t| && t[..n + 1] == s[..n + 1]
    ensures StartsWith(t, "--") && stop <= CommentReach(t)
  {
    forall i | 0 <= i < n + 1 ensures t[i] == s[i] {
      assert t[..n + 1][i] == s[..n + 1][i];
    }
    forall i | 0 <= i < stop - 2 ensures !IsBreak(t[2..][i]) {
      assert t[2..][i] == s[2..][i];
    }
    LineGoesOn(t[2..], stop - 2);
  }

  lemma {:induction false} LineGoesOn(s: string, n: nat)
    requires n <= |s| && forall i :: 0 <= i < n ==> !IsBreak(s[i])
    ensures n <= LineEnd(s)
  {
  }

  lemma {:induction false} SpacedAlike(s: string, t: string, n: nat)
    requires SpacedToQuote(s, n) && n < |t| && t[..n + 1] == s[..n + 1]
    ensures SpacedToQuote(t, n)
    decreases n
  {
    hide CommentReach;
    assert t[0] == t[..n + 1][0] == s[..n + 1][0] == s[0];
    if n > 0 {
      var stop := SpacedStep(s, n);
      assert t[stop..][..n - stop + 1] == t[..n + 1][stop..] == s[..n + 1][stop..] == s[stop..][..n - stop + 1];
      SpacedAlike(s[stop..], t[stop..], n - stop);
      if stop > 1 {
        ReachAlike(s, t, stop, n);
      }
    }
  }

  lemma {:induction false} BrokenAlike(s: string, t: string, n: nat)
    requires BrokenToQuote(s, n) && n < |t| && t[..n + 1] == s[..n + 1]
    ensures BrokenToQuote(t, n)
    decreases n
  {
    hide CommentReach, SpacedToQuote;
    assert t[0] == t[..n + 1][0] == s[..n + 1][0] == s[0];
    if IsBreak(s[0]) {
      assert t[1..][..n] == t[..n + 1][1..] == s[..n + 1][1..] == s[1..][..n];
      SpacedAlike(s[1..], t[1..], n - 1);
    } else {
      var stop := BrokenStep(s, n);
      assert t[stop..][..n - stop + 1] == t[..n + 1][stop..] == s[..n + 1][stop..] == s[stop..][..n - stop + 1];
      BrokenAlike(s[stop..], t[stop..], n - stop);
      if stop > 1 {
        ReachAlike(s, t, stop, n);
      }
    }
  }

  // ----- the first lone quote -----

  // Where a body ends when nothing carries it on.
  function LoneEnd(s: string): (e: End)
    ensures e.len <= |s| && (!e.closed ==> e.len == |s|) && (e.closed ==> 0 < e.len)
  {
    if s == "" then End(0, false)
    else if s[0] == '\\' then
      if |s| == 1 then End(1, false) else LoneEnd(s[2..]).After(2)
    else if s[0] != '\'' then LoneEnd(s[1..]).After(1)
    else if |s| > 1 && s[1] == '\'' then LoneEnd(s[2..]).After(2)
    else End(1, true)
  }

  lemma {:induction false} StraightIsLone(s: string)
    requires Straight(s)
    ensures EscapeEnd(s) == LoneEnd(s)
    decreases |s|
  {
    hide BeforeBreak;
    if s != "" && Turn(s) > 0 {
      StraightIsLone(s[Turn(s)..]);
    }
  }

  // A body that is carried on goes past its first lone quote to another quote.
  lemma {:induction false} CarriedGoesOn(s: string) returns (v: nat)
    requires !Straight(s)
    ensures LoneEnd(s).closed && LoneEnd(s).len <= v < EscapeEnd(s).len && s[v] == '\''
    decreases |s|
  {
    hide BeforeBreak;
    if Turn(s) > 0 {
      v := CarriedGoesOn(s[Turn(s)..]);
      v := v + Turn(s);
    } else {
      v := 1 + BeforeBreak(s[1..]).value;
    }
  }

  // ----- cutting at a `;` -----

  lemma {:induction false} StraightCut(s: string, k: nat)
    requires Straight(s) && EscapeEnd(s).len <= k < |s| && s[k] != '\''
    ensures Straight(s[..k])
    decreases |s|
  {
    hide BeforeBreak;
    var t := s[..k];
    if s[0] == '\\' {
      assert t[2..] == s[2..][..k - 2];
      StraightCut(s[2..], k - 2);
    } else if s[0] != '\'' {
      assert t[1..] == s[1..][..k - 1];
      StraightCut(s[1..], k - 1);
    } else if |s| > 1 && s[1] == '\'' {
      assert t[2..] == s[2..][..k - 2];
      StraightCut(s[2..], k - 2);
    } else {
      assert t[1..] == s[1..][..k - 1];
      BeforeBreakCut(s[1..], k - 1);
    }
  }

  // The two sides of the first cut of an uncontinued text are uncontinued.
  lemma {:induction false} UncontinuedCut(s: string)
    requires Uncontinued(s)
    ensures
      var k := FirstCut(s);
      Uncontinued(s[..k]) && (k < |s| ==> Uncontinued(s[k + 1..]))
    decreases |s|
  {
    hide FormAt, Carries, FirstCut;
    var k := FirstCut(s);
    if s == "" || k == |s| {
      assert s[..k] == s;
    } else if s[0] == ';' {
      CutAtSemicolon(s);
      SemicolonIsCode(s);
    } else {
      LexOnce(s);
      var n := FormAt(s).len;
      var tail := s[n..];
      UncontinuedCut(tail);
      FormCut(s, k);
      CarriesCut(s, k);
      assert s[..k][n..] == tail[..k - n] && tail[k - n + 1..] == s[k + 1..];
    }
  }

  lemma {:induction false} CarriesCut(s: string, k: nat)
    requires s != "" && !Carries(s) && FormAt(s).len <= k < |s| && s[k] == ';'
    ensures !Carries(s[..k])
  {
    hide FormAt, Straight;
    EscapeForm(s);
    if OpensEscape(s) {
      assert s[2..][..k - 2] == s[..k][2..] && s[2..][k - 2] == ';';
      StraightCut(s[2..], k - 2);
    }
  }

  // With no line break left, nothing is continued.
  lemma {:induction false} NoBreakNoContinuation(s: string)
    requires '\n' !in s && '\r' !in s
    ensures BeforeBreak(s).None?
    decreases |s|
  {
    if s != "" {
      assert s[0] in s;
      NoBreakNoContinuation(s[1..]);
      if StartsWith(s, "--") {
        NoBreakInComment(s, CommentReach(s));
      }
    }
  }

  lemma {:induction false} NoBreakInComment(s: string, stop: nat)
    requires '\n' !in s && '\r' !in s && 2 <= stop <= |s|
    ensures CommentBeforeBreak(s, stop).None?
    decreases |s|, stop
  {
    NoBreakNoContinuation(s[stop..]);
    if stop > 2 {
      NoBreakInComment(s, stop - 1);
    }
  }

  lemma {:induction false} NoBreakIsStraight(s: string)
    requires '\n' !in s && '\r' !in s
    ensures Straight(s)
    decreases |s|
  {
    hide BeforeBreak;
    if s != "" {
      NoBreakNoContinuation(s[1..]);
      NoBreakIsStraight(s[1..]);
      if |s| > 1 {
        NoBreakIsStraight(s[2..]);
      }
    }
  }

  lemma {:induction false} NoBreakIsUncontinued(s: string)
    requires '\n' !in s && '\r' !in s
    ensures Uncontinued(s)
    decreases |s|
  {
    hide FormAt, Straight;
    if s != "" {
      if |s| > 1 {
        NoBreakIsStraight(s[2..]);
      }
      NoBreakIsUncontinued(s[FormAt(s).len..]);
    }
  }
}
