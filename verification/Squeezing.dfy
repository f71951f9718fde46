// Collapsing whitespace and stripping the ends: what it does to the form at the
// head of a text.

module Squeezing {
  import opened Chars
  import opened SqlLexer
  import opened Splitter
  import opened ExecutionMode
  import opened Normalizer
  import opened Escapes
  import opened Uncommenting

  // Whitespace collapsed and none left at the end.
  function Squeeze(s: string): string
    decreases |s|
  {
    if s == "" then ""
    else if IsSpace(s[0]) then
      var rest := SkipSpaces(s);
      if rest == "" then "" else " " + Squeeze(rest)
    else [s[0]] + Squeeze(s[1..])
  }

  // ----- collapsing and stripping is squeezing -----

  lemma {:induction false} DropLastHead(c: char, s: string)
    ensures
      DropLastSpaces([c] + s) ==
      if DropLastSpaces(s) == "" && IsSpace(c) then "" else [c] + DropLastSpaces(s)
    decreases |s|
  {
    var t := [c] + s;
    assert t[|t| - 1] == if s == "" then c else s[|s| - 1];
    if s == "" {
      assert t[..0] == "";
    } else if IsSpace(s[|s| - 1]) {
      assert t[..|t| - 1] == [c] + s[..|s| - 1];
      DropLastHead(c, s[..|s| - 1]);
    }
  }

  lemma {:induction false} CollapseThenDrop(s: string)
    ensures DropLastSpaces(Collapse(s)) == Squeeze(s)
    decreases |s|
  {
    if s == "" {
    } else if IsSpace(s[0]) {
      var rest := SkipSpaces(s[1..]);
      CollapseThenDrop(rest);
      DropLastHead(' ', Collapse(rest));
      assert Collapse(s) == [' '] + Collapse(rest);
    } else {
      CollapseThenDrop(s[1..]);
      DropLastHead(s[0], Collapse(s[1..]));
    }
  }

  lemma {:induction false} KeyIsSqueezed(text: string)
    ensures Strip(Collapse(text)) == Squeeze(SkipSpaces(text))
  {
    CollapsedStart(text);
    hide Squeeze, Collapse, SkipSpaces;
    CollapseThenDrop(SkipSpaces(text));
  }

  lemma {:induction false} CollapsedStart(text: string)
    ensures SkipSpaces(Collapse(text)) == Collapse(SkipSpaces(text))
  {
    hide IsSpace, SkipSpaces, Collapse;
    var rest := SkipSpaces(text);
    CollapseHead(rest);
    CollapseHead(text);
    if text != "" && IsSpace(text[0]) {
      QuoteIsSolid();
      SkipThrough(Collapse(text));
      assert Collapse(text)[1..] == Collapse(rest);
    } else {
      SkipNone(text);
    }
    SkipNone(Collapse(rest));
  }

  lemma {:induction false} CollapseHead(s: string)
    ensures s != "" && !IsSpace(s[0]) ==> Collapse(s) != "" && Collapse(s)[0] == s[0]
    ensures s != "" && IsSpace(s[0]) ==> Collapse(s) == " " + Collapse(SkipSpaces(s))
    ensures s == "" ==> Collapse(s) == ""
  {
  }

  lemma {:induction false} SkipNone(s: string)
    requires s == "" || !IsSpace(s[0])
    ensures SkipSpaces(s) == s
  {
  }

  lemma {:induction false} SkipThrough(s: string)
    requires s != "" && IsSpace(s[0])
    ensures SkipSpaces(s) == SkipSpaces(s[1..])
  {
  }

  // ----- bodies and patterns -----

  lemma {:induction false} SqueezeAhead(s: string, n: nat)
    requires n <= |s| && forall i :: 0 <= i < n ==> !IsSpace(s[i])
    ensures Squeeze(s) == s[..n] + Squeeze(s[n..])
    decreases n
  {
    if n > 0 {
      SqueezeAhead(s[1..], n - 1);
      assert s[1..][n - 1..] == s[n..];
      assert [s[0]] + s[1..][..n - 1] == s[..n];
    }
  }

  lemma {:induction false} NothingSqueezed()
    ensures Squeeze("") == ""
  {
  }

  lemma {:induction false} SqueezeHead(s: string)
    requires s != "" && !IsSpace(s[0])
    ensures Squeeze(s) != "" && Squeeze(s)[0] == s[0] && Squeeze(s)[1..] == Squeeze(s[1..])
  {
  }

  lemma {:induction false} SqueezeFollows(x: string)
    ensures MayFollow(x, Squeeze(x))
    ensures x != "" && !IsSpace(x[0]) ==> Squeeze(x) != "" && Squeeze(x)[0] == x[0]
    ensures x == "" || IsSpace(x[0]) ==> Squeeze(x) == "" || Squeeze(x)[0] == ' '
  {
  }

  lemma {:induction false} SqueezeOfSpaces(s: string)
    requires s != "" && IsSpace(s[0])
    ensures
      var rest := SkipSpaces(s);
      if rest == "" then Squeeze(s) == ""
      else Squeeze(s) != "" && Squeeze(s)[0] == ' ' && Squeeze(s)[1..] == Squeeze(rest)
  {
  }

  lemma {:induction false} SkipsOne(s: string)
    requires s != "" && IsSpace(s[0])
    ensures |SkipSpaces(s)| < |s|
  {
  }

  lemma {:induction false} SliceAgain(s: string, n: nat, m: nat)
    requires n + m <= |s|
    ensures s[n..][m..] == s[n + m..]
  {
  }

  // What one character of a body consumes; the rest of the proof is which of
  // these turns the squeezed body takes.
  lemma {:induction false} QuotedTurn(s: string, quote: char)
    requires s != ""
    ensures s[0] != quote ==> QuotedEnd(s, quote) == QuotedEnd(s[1..], quote).After(1)
    ensures |s| > 1 && s[0] == quote && s[1] == quote ==>
      QuotedEnd(s, quote) == QuotedEnd(s[2..], quote).After(2)
    ensures s[0] == quote && (|s| == 1 || s[1] != quote) ==> QuotedEnd(s, quote) == End(1, true)
  {
  }

  lemma {:induction false} QuotedSqueeze(s: string, quote: char)
    requires !IsSpace(quote)
    ensures
      var e, g := QuotedEnd(s, quote), QuotedEnd(Squeeze(s), quote);
      g.closed == e.closed && Squeeze(s)[g.len..] == Squeeze(s[e.len..])
    decreases |s|, 1
  {
    hide QuotedEnd, Squeeze, IsSpace;
    if s == "" {
      NothingSqueezed();
      NothingQuoted(quote);
    } else if IsSpace(s[0]) {
      QuotedSqueezeSpaces(s, quote);
    } else {
      var u := Squeeze(s);
      SqueezeHead(s);
      QuotedTurn(s, quote);
      QuotedTurn(u, quote);
      SqueezeFollows(s[1..]);
      if s[0] != quote || |s| == 1 || s[1] != quote {
        QuotedSqueeze(s[1..], quote);
        SliceAgain(s, 1, QuotedEnd(s[1..], quote).len);
        SliceAgain(u, 1, QuotedEnd(u[1..], quote).len);
        SpaceIsNoQuote(quote);
      } else {
        QuotedSqueeze(s[2..], quote);
        SqueezeHead(s[1..]);
        SliceAgain(s, 2, QuotedEnd(s[2..], quote).len);
        SliceAgain(u, 2, QuotedEnd(u[2..], quote).len);
      }
    }
  }

  lemma {:induction false} SpaceIsNoQuote(quote: char)
    requires !IsSpace(quote)
    ensures quote != ' '
  {
  }

  lemma {:induction false} QuotedSqueezeSpaces(s: string, quote: char)
    requires !IsSpace(quote) && s != "" && IsSpace(s[0])
    ensures
      var e, g := QuotedEnd(s, quote), QuotedEnd(Squeeze(s), quote);
      g.closed == e.closed && Squeeze(s)[g.len..] == Squeeze(s[e.len..])
    decreases |s|, 0
  {
    hide QuotedEnd, Squeeze, SkipSpaces;
    var rest, u := SkipSpaces(s), Squeeze(s);
    assert |rest| < |s| by { SkipsOne(s); }
    var n := |s| - |rest|;
    SqueezeOfSpaces(s);
    QuotedSqueeze(rest, quote);
    QuotedOverSpaces(s, quote, n);
    NothingQuoted(quote);
    NothingSqueezed();
    var e := QuotedEnd(rest, quote);
    assert s[n..] == rest && s[n..][e.len..] == s[n + e.len..];
    if rest != "" {
      QuotedTurn(u, quote);
      var g := QuotedEnd(u[1..], quote);
      assert u[1..][g.len..] == u[1 + g.len..];
    }
  }

  lemma {:induction false} NothingQuoted(quote: char)
    ensures QuotedEnd("", quote) == End(0, false)
  {
  }

  lemma {:induction false} QuotedOverSpaces(s: string, quote: char, n: nat)
    requires n <= |s| && Blank(s[..n]) && !IsSpace(quote)
    ensures QuotedEnd(s, quote) == QuotedEnd(s[n..], quote).After(n)
    decreases n
  {
    if n > 0 {
      assert s[..n][0] == s[0];
      assert s[..n][1..] == s[1..][..n - 1];
      QuotedOverSpaces(s[1..], quote, n - 1);
      assert s[1..][n - 1..] == s[n..];
    }
  }

  predicate Solid(s: string) {
    s != "" && forall c <- s :: !IsSpace(c)
  }

  lemma {:induction false} PrefixSqueeze(s: string, pattern: string)
    requires forall c <- pattern :: !IsSpace(c)
    ensures StartsWith(s, pattern) <==> StartsWith(Squeeze(s), pattern)
    decreases |s|
  {
    if pattern != "" {
      assert pattern[0] in pattern;
    }
    if pattern != "" && s != "" && !IsSpace(s[0]) {
      PrefixSqueeze(s[1..], pattern[1..]);
      assert s == [s[0]] + s[1..] && pattern == [pattern[0]] + pattern[1..];
      assert StartsWith(s, pattern) <==> s[0] == pattern[0] && StartsWith(s[1..], pattern[1..]);
      assert Squeeze(s)[1..] == Squeeze(s[1..]);
    }
  }

  lemma {:induction false} FindSqueeze(s: string, pattern: string)
    requires Solid(pattern)
    ensures
      var at, to, n := Find(s, pattern), Find(Squeeze(s), pattern), |pattern|;
      && (at.Some? <==> to.Some?)
      && (at.Some? ==> Squeeze(s)[to.value + n..] == Squeeze(s[at.value + n..]))
    decreases |s|
  {
    hide Find, Squeeze, SkipSpaces, Blank, IsSpace;
    var n, u := |pattern|, Squeeze(s);
    PrefixSqueeze(s, pattern);
    if StartsWith(s, pattern) {
      FindHere(s, pattern);
      FindHere(u, pattern);
      SqueezeAhead(s, n);
    } else if s == "" {
      NothingSqueezed();
    } else {
      var rest := SqueezeOnce(s);
      FindSqueeze(rest, pattern);
      FindOver(s, pattern, |s| - |rest|);
      if u != "" {
        FindOver(u, pattern, 1);
        FoundLater(u, s, rest, pattern);
      } else {
        NothingSqueezed();
        NotFound(pattern);
      }
    }
  }

  lemma {:induction false} FindHere(s: string, pattern: string)
    requires StartsWith(s, pattern)
    ensures Find(s, pattern) == Some(0)
  {
  }

  lemma {:induction false} NotFound(pattern: string)
    requires pattern != ""
    ensures Find("", pattern) == None
  {
  }

  // One step of squeezing: what is left of `s`, and of its squeezed form.
  lemma {:induction false} SqueezeOnce(s: string) returns (rest: string)
    requires s != ""
    ensures |rest| < |s| && s[|s| - |rest|..] == rest
    ensures Blank(s[..|s| - |rest|]) || |s| - |rest| == 1
    ensures if Squeeze(s) == "" then rest == "" else Squeeze(s)[1..] == Squeeze(rest)
  {
    rest := if IsSpace(s[0]) then SkipSpaces(s) else s[1..];
  }

  lemma {:induction false} FoundLater(u: string, s: string, rest: string, pattern: string)
    requires u != "" && |rest| < |s| && s[|s| - |rest|..] == rest && u[1..] == Squeeze(rest)
    ensures forall n: nat :: n <= |u| - 1 ==> u[1 + n..] == u[1..][n..]
    ensures forall n: nat :: n <= |rest| ==> s[|s| - |rest| + n..] == rest[n..]
  {
  }

  // A pattern without spaces is not found in a run of them.
  lemma {:induction false} FindOver(s: string, pattern: string, n: nat)
    requires Solid(pattern) && n <= |s|
    requires Blank(s[..n]) || (n == 1 && !StartsWith(s, pattern))
    ensures Find(s, pattern) == if Find(s[n..], pattern).None? then None else Some(n + Find(s[n..], pattern).value)
    decreases n
  {
    hide IsSpace;
    if n > 0 {
      NotInSpaces(s, pattern, n);
      hide Blank;
      FindOver(s[1..], pattern, n - 1);
      assert s[1..][n - 1..] == s[n..];
    }
  }

  lemma {:induction false} NotInSpaces(s: string, pattern: string, n: nat)
    requires Solid(pattern) && 0 < n <= |s|
    requires Blank(s[..n]) || (n == 1 && !StartsWith(s, pattern))
    ensures !StartsWith(s, pattern) && Blank(s[1..][..n - 1])
  {
    hide IsSpace;
    if Blank(s[..n]) {
      assert s[..n][0] == s[0] && s[..n][1..] == s[1..][..n - 1];
      assert IsSpace(s[0]) && pattern[0] in pattern;
    } else {
      assert s[1..][..0] == "";
    }
  }

  // ----- escape strings -----

  lemma {:induction false} LoneTurn(s: string)
    requires s != ""
    ensures Turn(s) > 0 ==> LoneEnd(s) == LoneEnd(s[Turn(s)..]).After(Turn(s))
    ensures s[0] == '\'' && Turn(s) == 0 ==> LoneEnd(s) == End(1, true)
    ensures s == "\\" ==> LoneEnd(s) == End(1, false)
  {
  }

  // An escape string's body, squeezed, ends at the same lone quote.
  lemma {:induction false} LoneSqueeze(s: string)
    ensures
      var e, g := LoneEnd(s), LoneEnd(Squeeze(s));
      g.closed == e.closed && Squeeze(s)[g.len..] == Squeeze(s[e.len..])
    decreases |s|, 1
  {
    hide LoneEnd, Squeeze, IsSpace;
    if s == "" {
      NothingSqueezed();
      NothingLone();
    } else if IsSpace(s[0]) {
      LoneSqueezeSpaces(s);
    } else {
      var u, k := Squeeze(s), Turn(s);
      SqueezeHead(s);
      LoneTurn(s);
      LoneTurn(u);
      SqueezeFollows(s[1..]);
      QuoteIsSolid();
      if s[0] == '\\' && k == 2 && IsSpace(s[1]) {
        LoneSqueezeEscapedSpace(s);
      } else if k > 0 {
        LoneSqueezeOneTurn(s);
      } else {
        NothingSqueezed();
        assert |u| > 1 ==> u[1] == u[1..][0];
        assert s[0] == '\\' ==> s == "\\" && s[1..] == "" && u == "\\";
      }
    }
  }

  lemma {:induction false} LoneSqueezeOneTurn(s: string)
    requires s != "" && !IsSpace(s[0]) && Turn(s) > 0 && (Turn(s) == 2 ==> !IsSpace(s[1]))
    ensures
      var e, g := LoneEnd(s), LoneEnd(Squeeze(s));
      g.closed == e.closed && Squeeze(s)[g.len..] == Squeeze(s[e.len..])
    decreases |s|, 0
  {
    hide LoneEnd, Squeeze, IsSpace;
    var u, k := Squeeze(s), Turn(s);
    SqueezeHead(s);
    if k == 2 {
      SqueezeHead(s[1..]);
      assert s[1..][1..] == s[2..] && u[1..][1..] == u[2..] && u[1] == u[1..][0];
    }
    assert Turn(u) == k && u[k..] == Squeeze(s[k..]);
    LoneTurn(s);
    LoneTurn(u);
    LoneSqueeze(s[k..]);
    SliceAgain(s, k, LoneEnd(s[k..]).len);
    SliceAgain(u, k, LoneEnd(u[k..]).len);
  }

  lemma {:induction false} QuoteIsSolid()
    ensures !IsSpace('\'') && !IsSpace('\\') && IsSpace(' ')
  {
  }

  lemma {:induction false} NothingLone()
    ensures LoneEnd("") == End(0, false)
  {
  }

  lemma {:induction false} LoneOverSpaces(s: string, n: nat)
    requires n <= |s| && Blank(s[..n])
    ensures LoneEnd(s) == LoneEnd(s[n..]).After(n)
    decreases n
  {
    if n > 0 {
      assert s[..n][0] == s[0] && s[0] in s[..n];
      QuoteIsSolid();
      assert s[..n][1..] == s[1..][..n - 1];
      LoneOverSpaces(s[1..], n - 1);
      assert s[1..][n - 1..] == s[n..];
    }
  }

  lemma {:induction false} LoneSqueezeSpaces(s: string)
    requires s != "" && IsSpace(s[0])
    ensures
      var e, g := LoneEnd(s), LoneEnd(Squeeze(s));
      g.closed == e.closed && Squeeze(s)[g.len..] == Squeeze(s[e.len..])
    decreases |s|, 0
  {
    hide LoneEnd, Squeeze, SkipSpaces, IsSpace, Blank;
    QuoteIsSolid();
    var rest, u := SkipSpaces(s), Squeeze(s);
    SkipsOne(s);
    var n := |s| - |rest|;
    SqueezeOfSpaces(s);
    LoneSqueeze(rest);
    LoneOverSpaces(s, n);
    NothingLone();
    NothingSqueezed();
    var e := LoneEnd(rest);
    SliceAgain(s, n, e.len);
    if rest != "" {
      LoneTurn(u);
      SliceAgain(u, 1, LoneEnd(u[1..]).len);
    }
  }

  // A backslash takes one character of a run of whitespace, or the space it
  // was collapsed to.
  lemma {:induction false} LoneSqueezeEscapedSpace(s: string)
    requires |s| > 1 && s[0] == '\\' && IsSpace(s[1])
    ensures
      var e, g := LoneEnd(s), LoneEnd(Squeeze(s));
      g.closed == e.closed && Squeeze(s)[g.len..] == Squeeze(s[e.len..])
    decreases |s|, 0
  {
    hide LoneEnd, Squeeze, SkipSpaces, IsSpace, Blank;
    var rest, u := SkipSpaces(s[1..]), Squeeze(s);
    SkipsOne(s[1..]);
    var n := |s| - |rest|;
    LoneSqueeze(rest);
    EscapedSpaceEnds(s, n);
    SliceAgain(s, n, LoneEnd(rest).len);
    NothingLone();
    NothingSqueezed();
    EscapedSpaceKept(s);
    LoneTurn(u);
    if rest != "" {
      SliceAgain(u, 2, LoneEnd(u[2..]).len);
    }
  }

  lemma {:induction false} EscapedSpaceEnds(s: string, n: nat)
    requires |s| > 1 && s[0] == '\\' && 2 <= n <= |s| && Blank(s[1..][..n - 1])
    ensures LoneEnd(s) == LoneEnd(s[n..]).After(n)
  {
    hide LoneEnd, Blank;
    LoneTurn(s);
    BlankAfterOne(s, n);
    LoneOverSpaces(s[2..], n - 2);
    SliceAgain(s, 2, n - 2);
  }

  lemma {:induction false} EscapedSpaceKept(s: string)
    requires |s| > 1 && s[0] == '\\' && IsSpace(s[1])
    ensures
      var rest, u := SkipSpaces(s[1..]), Squeeze(s);
      if rest == "" then u == "\\"
      else |u| > 1 && u[0] == '\\' && u[2..] == Squeeze(rest)
  {
    hide Squeeze, SkipSpaces, IsSpace;
    var rest, u := SkipSpaces(s[1..]), Squeeze(s);
    QuoteIsSolid();
    SqueezeHead(s);
    SqueezeOfSpaces(s[1..]);
    assert rest != "" ==> u[2..] == u[1..][1..];
  }

  lemma {:induction false} BlankAfterOne(s: string, n: nat)
    requires 2 <= n <= |s| && Blank(s[1..][..n - 1])
    ensures Blank(s[2..][..n - 2])
  {
    assert s[2..][..n - 2] == s[1..][..n - 1][1..];
  }

  // ----- what a form reads ahead -----

  lemma {:induction false} AlikeFrom(x: string, y: string)
    requires MayFollow(x, y)
    requires x != "" && x[0] == '&' && y != "" && y[0] == '&' ==> MayFollow(x[1..], y[1..])
    requires TagLength("$" + x).None? ==> TagLength("$" + y).None?
    ensures ReadsAlike(x, y)
  {
    hide TagLength, MayFollow;
  }

  lemma {:induction false} SqueezeAfterOne(x: string)
    ensures x != "" && x[0] == '&' ==> Squeeze(x) != "" && Squeeze(x)[1..] == Squeeze(x[1..])
  {
  }

  lemma {:induction false} SqueezeReadsAlike(x: string)
    ensures ReadsAlike(x, Squeeze(x))
  {
    hide *;
    SqueezeFollows(x);
    SqueezeAfterOne(x);
    if x != "" {
      SqueezeFollows(x[1..]);
    }
    SqueezeKeepsTag(x);
    AlikeFrom(x, Squeeze(x));
  }

  // Squeezing makes no dollar tag where there was none: the first whitespace in
  // a name, once a space, ends it.
  lemma {:induction false} SqueezeKeepsTag(x: string)
    ensures TagLength("$" + x).None? ==> TagLength("$" + Squeeze(x)).None?
  {
    if forall i :: 0 <= i < NameLength(x) ==> !IsSpace(x[i]) {
      SolidNameKeepsTag(x);
    } else {
      SpaceEndsTag(x);
    }
  }

  lemma {:induction false} SolidNameKeepsTag(x: string)
    requires forall i :: 0 <= i < NameLength(x) ==> !IsSpace(x[i])
    ensures TagLength("$" + x).None? ==> TagLength("$" + Squeeze(x)).None?
  {
    hide TagRun, Squeeze;
    var y := Squeeze(x);
    SqueezeFollows(x);
    assert ("$" + x)[1..] == x && ("$" + y)[1..] == y;
    if TagLength("$" + x).None? && x != "" && IsWordStart(x[0]) {
      var m := TagRun(x);
      SqueezeAhead(x, m);
      SqueezeFollows(x[m..]);
      assert y == x[..m] + y[m..];
      assert m < |y| ==> y[m] == Squeeze(x[m..])[0];
      TagRunSwap(x, y[m..]);
      assert m < |x| ==> x[m..][0] == x[m];
      assert m < |y| ==> y[m] != '$';
      assert IsWordStart(y[0]);
    }
  }

  lemma {:induction false} SpaceEndsTag(x: string)
    requires exists i :: 0 <= i < NameLength(x) && IsSpace(x[i])
    ensures TagLength("$" + Squeeze(x)).None?
  {
    var j := FirstSpace(x, 0);
    hide Squeeze, IsSpace;
    var y := Squeeze(x);
    SqueezeAhead(x, j);
    SqueezeFollows(x[j..]);
    assert x[j..][0] == x[j];
    assert y == x[..j] + Squeeze(x[j..]);
    assert j < |y| ==> y[j] == Squeeze(x[j..])[0];
    assert j > 0 ==> y[0] == x[0];
    TagStopsAt(y, j);
  }

  lemma {:induction false} FirstSpace(x: string, from: nat) returns (j: nat)
    requires from <= NameLength(x) && forall i :: 0 <= i < from ==> !IsSpace(x[i])
    requires exists i :: 0 <= i < NameLength(x) && IsSpace(x[i])
    ensures j < NameLength(x) && IsSpace(x[j]) && forall i :: 0 <= i < j ==> !IsSpace(x[i])
    ensures j > 0 ==> IsWordStart(x[0])
    decreases NameLength(x) - from
  {
    if IsSpace(x[from]) {
      j := from;
    } else {
      j := FirstSpace(x, from + 1);
    }
  }

  lemma {:induction false} TagStopsAt(y: string, j: nat)
    requires j <= |y| && (j < |y| ==> y[j] == ' ') && forall i :: 0 <= i < j ==> IsTagChar(y[i])
    ensures TagLength("$" + y).None?
  {
    assert ("$" + y)[1..] == y;
  }

  // ----- the form at the head -----

  // The head holds no whitespace but inside its quotes.
  predicate SolidHead(s: string)
    requires s != ""
  {
    var f := FormAt(s);
    && !IsSpace(s[0]) && !IsComment(f.kind)
    && (f.kind == Code ==> Solid(s[..f.len]))
    && (f.kind == Dollar ==> Solid(s[..TagLength(s).value]))
    && !Carries(s)
  }

  ghost predicate SameForm(s: string, u: string)
    requires s != "" && u != ""
  {
    var f, g := FormAt(s), FormAt(u);
    g.kind == f.kind && g.closed == f.closed && u[g.len..] == Squeeze(s[f.len..])
  }

  lemma {:induction false} SqueezeForm(s: string)
    requires s != "" && SolidHead(s)
    ensures Squeeze(s) != "" && Squeeze(s)[0] == s[0] && SameForm(s, Squeeze(s))
  {
    hide QuotedEnd, EscapeEnd, BlockEnd, DollarEnd, TagLength, LineEnd, WordForm, Squeeze, SameForm, Straight, Solid;
    SqueezeHead(s);
    EscapeForm(s);
    if FormAt(s).kind == Code {
      SqueezeCode(s);
    } else if s[0] == '\'' || s[0] == '"' {
      SqueezeQuoted(s);
    } else if s[0] == '$' {
      SqueezeDollar(s);
    } else if OpensEscape(s) {
      SqueezeEscape(s);
    } else {
      assert s[0] != '-' && s[0] != '/' && FormAt(s) == WordForm(s);
      SqueezePrefixed(s);
    }
  }

  // What is left after a body that starts at `at`.
  lemma {:induction false} BodyAfter(s: string, at: nat, quote: char)
    requires at <= |s|
    ensures
      var n := QuotedEnd(s[at..], quote).len;
      at + n <= |s| && s[at..][n..] == s[at + n..]
  {
  }

  lemma {:induction false} SqueezeQuoted(s: string)
    requires s != "" && (s[0] == '\'' || s[0] == '"')
    ensures Squeeze(s) != "" && SameForm(s, Squeeze(s))
  {
    hide QuotedEnd, BlockEnd, DollarEnd, TagLength, LineEnd, WordForm, Squeeze;
    var u, n := Squeeze(s), FormAt(s).len - 1;
    SqueezeAhead(s, 1);
    assert u[0] == s[0] && u[1..] == Squeeze(s[1..]);
    QuotedSqueeze(s[1..], s[0]);
    BodyAfter(s, 1, s[0]);
    BodyAfter(u, 1, s[0]);
  }

  lemma {:induction false} SqueezeCode(s: string)
    requires s != "" && FormAt(s).kind == Code && Solid(s[..FormAt(s).len])
    ensures Squeeze(s) != "" && SameForm(s, Squeeze(s))
  {
    hide FormAt, Squeeze;
    var n := FormAt(s).len;
    assert forall i :: 0 <= i < n ==> s[i] == s[..n][i];
    SqueezeAhead(s, n);
    SqueezeReadsAlike(s[n..]);
    CodeSwap(s, Squeeze(s[n..]));
    assert (s[..n] + Squeeze(s[n..]))[n..] == Squeeze(s[n..]);
  }

  lemma {:induction false} SqueezeDollar(s: string)
    requires s != "" && s[0] == '$' && FormAt(s).kind == Dollar && Solid(s[..TagLength(s).value])
    ensures Squeeze(s) != "" && SameForm(s, Squeeze(s))
  {
    hide Squeeze, TagLength, Find;
    var k, u := TagLength(s).value, Squeeze(s);
    var tag := s[..k];
    TagSqueezed(s, k);
    TagAhead(s, u);
    FindSqueeze(s[k..], tag);
    var at, to := Find(s[k..], tag), Find(u[k..], tag);
    if at.Some? {
      SliceAgain(s, k, at.value + k);
      SliceAgain(u, k, to.value + k);
    } else {
      assert s[|s|..] == "" && u[|u|..] == "";
      NothingSqueezed();
    }
  }

  lemma {:induction false} TagSqueezed(s: string, k: nat)
    requires k <= |s| && Solid(s[..k])
    ensures
      var u := Squeeze(s);
      k <= |u| && u[..k] == s[..k] && u[k..] == Squeeze(s[k..])
  {
    hide Squeeze, IsSpace;
    assert forall i :: 0 <= i < k ==> s[i] == s[..k][i];
    SqueezeAhead(s, k);
  }

  lemma {:induction false} SqueezePrefixed(s: string)
    requires s != "" && IsWordStart(s[0]) && !IsSpace(s[0]) && WordForm(s).kind in {Literal, Identifier}
    ensures Squeeze(s) != "" && SameForm(s, Squeeze(s))
  {
    hide QuotedEnd, WordForm, Squeeze;
    PrefixedIsApart(s);
    PrefixedBody(s);
    var u := Squeeze(s);
    var n := if s[1] == '\'' then 2 else 3;
    SqueezeAhead(s, n);
    assert u[..n] == s[..n] && u[n..] == Squeeze(s[n..]);
    assert u[0] == s[..n][0] && u[1] == s[..n][1] && u[n - 1] == s[..n][n - 1];
    PrefixedBody(u);
    QuotedSqueeze(s[n..], s[n - 1]);
    BodyAfter(s, n, s[n - 1]);
    BodyAfter(u, n, s[n - 1]);
    WordIsForm(s);
    WordIsForm(u);
  }

  lemma {:induction false} WordIsForm(s: string)
    requires s != "" && IsWordStart(s[0])
    ensures FormAt(s) == WordForm(s)
  {
    hide WordForm, QuotedEnd, BlockEnd, LineEnd, DollarEnd, TagLength;
  }

  lemma {:induction false} SqueezeEscape(s: string)
    requires OpensEscape(s) && !Carries(s)
    ensures Squeeze(s) != "" && SameForm(s, Squeeze(s))
  {
    EscapeKept(s);
    hide FormAt, Squeeze, Straight, EscapeEnd, LoneEnd;
    var body, u := s[2..], Squeeze(s);
    EscapeForm(s);
    EscapeForm(u);
    StraightIsLone(body);
    LoneSqueeze(body);
    SliceAgain(s, 2, LoneEnd(body).len);
    SliceAgain(u, 2, LoneEnd(u[2..]).len);
  }

  // Squeezed, an escape string stays one, and holds no line break to be
  // carried over.
  lemma {:induction false} EscapeKept(s: string)
    requires OpensEscape(s)
    ensures
      var u := Squeeze(s);
      && OpensEscape(u) && u[2..] == Squeeze(s[2..])
      && EscapeEnd(u[2..]) == LoneEnd(u[2..])
  {
    QuoteIsSolid();
    SqueezeHead(s);
    SqueezeHead(s[1..]);
    hide Squeeze, EscapeEnd, LoneEnd;
    var u := Squeeze(s);
    assert u[1..] == Squeeze(s[1..]) && u[1..][1..] == Squeeze(s[1..][1..]) && s[1..][1..] == s[2..];
    assert u[1] == u[1..][0];
    SqueezeHasNoBreak(s[2..]);
    NoBreakIsStraight(u[2..]);
    StraightIsLone(u[2..]);
  }

  lemma {:induction false} SqueezeHasNoBreak(s: string)
    ensures '\n' !in Squeeze(s) && '\r' !in Squeeze(s)
    decreases |s|
  {
    hide SkipSpaces;
    if s != "" {
      if IsSpace(s[0]) {
        SkipsOne(s);
        SqueezeHasNoBreak(SkipSpaces(s));
      } else {
        SqueezeHasNoBreak(s[1..]);
      }
    }
  }

  // Whatever stands inside, a form that opens a quote, a comment or a dollar
  // body opens one when squeezed.
  lemma {:induction false} SqueezeOpens(s: string)
    requires s != "" && !IsSpace(s[0]) && FormAt(s).kind != Code
    requires FormAt(s).kind == Dollar ==> Solid(s[..TagLength(s).value])
    ensures Squeeze(s) != "" && Squeeze(s)[0] == s[0] && FormAt(Squeeze(s)).kind != Code
  {
    hide QuotedEnd, EscapeEnd, BlockEnd, DollarEnd, TagLength, LineEnd, WordForm, Squeeze, Straight, Solid;
    SqueezeHead(s);
    EscapeForm(s);
    if s[0] == '\'' || s[0] == '"' {
      SqueezeQuoted(s);
    } else if s[0] == '$' {
      SqueezeDollar(s);
    } else if StartsWith(s, "--") || StartsWith(s, "/*") {
      assert forall c <- s[..2] :: !IsSpace(c);
      PrefixSqueeze(s, s[..2]);
    } else if OpensEscape(s) {
      EscapeKept(s);
      EscapeForm(Squeeze(s));
    } else {
      SqueezePrefixed(s);
    }
  }

  // ----- a key squeezed again -----

  lemma {:induction false} SqueezeTwice(s: string)
    ensures Squeeze(Squeeze(s)) == Squeeze(s)
    decreases |s|
  {
    if s != "" {
      if IsSpace(s[0]) {
        var rest := SkipSpaces(s);
        SqueezeTwice(rest);
        if rest != "" {
          var u := Squeeze(s);
          assert u[1..] == Squeeze(rest) && Squeeze(rest)[0] == rest[0];
          assert SkipSpaces(u) == Squeeze(rest);
        }
      } else {
        SqueezeTwice(s[1..]);
        assert Squeeze(s)[1..] == Squeeze(s[1..]);
      }
    }
  }

  lemma {:induction false} SqueezedStart(v: string)
    requires v == "" || !IsSpace(v[0])
    ensures SkipSpaces(Squeeze(v)) == Squeeze(v)
  {
    SqueezeFollows(v);
  }
}
